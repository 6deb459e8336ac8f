/**
 The file probes (fileop/fileop.bpf.c) as a machine over traces of system-call events from
 any number of threads.  Each probe is one step over the shared maps.  Reservation
 failures, full maps and evictions from the descriptor table may happen at any point.
 */
module FileOps {
  import opened Common
  import opened FilePaths

  datatype Thread = Thread(tgid: nat, pid: nat)

  datatype Op = OpenOp | WriteOp | MmapReadOp | MmapWriteOp

  datatype PathValue = PathValue(
    path: bytes, flags: nat, writeBytes: nat, wrote: bool, mappedRead: bool, mappedWrite: bool)

  datatype Event = Event(thread: Thread, op: Op, path: bytes, flags: nat, bytes: nat)

  datatype State = State(
    inflightOpen: map<Thread, PathValue>, inflightWrite: map<Thread, nat>, fdPaths: map<FdKey, PathValue>,
    events: seq<Event>)

  /** `noise` filters opens, `drop` filters events; `cut` is what a path buffer does to a string. */
  datatype Config = Config(cut: bytes -> bytes, noise: bytes -> bool, drop: (bytes, Op) -> bool)

  datatype Probe =
    | EnterOpen(t: Thread, dirfd: int, user: Option<bytes>, flags: nat, room: bool)
    | ExitOpen(t: Thread, ret: int, room: bool)
    | EnterWrite(t: Thread, fd: nat, count: nat, room: bool)
    | ExitWrite(t: Thread, ret: int)
    | Mmap(t: Thread, mapFd: int, write: bool, room: bool)
    | Close(t: Thread, fd: nat, room: bool)
    | Evict(key: FdKey)

  const TWO64 := 0x1_0000_0000_0000_0000

  // ---------- the steps ----------

  function PathsOf(fdPaths: map<FdKey, PathValue>): map<FdKey, bytes> {
    map k | k in fdPaths :: fdPaths[k].path
  }

  /** Nothing is sent for a filtered path or a full ring buffer. */
  function Sent(cfg: Config, t: Thread, op: Op, v: PathValue, n: nat, room: bool): seq<Event> {
    if cfg.drop(v.path, op) || !room then [] else [Event(t, op, v.path, v.flags, n)]
  }

  function StepEnterOpen(
      cfg: Config, s: State, t: Thread, dirfd: int, user: Option<bytes>, flags: nat, room: bool): State {
    var r := Resolve(cfg.cut, PathsOf(s.fdPaths), t.tgid, dirfd, user);
    if r.None? || cfg.noise(r.value) || !room then s
    else s.(inflightOpen := s.inflightOpen[t := PathValue(r.value, flags, 0, false, false, false)])
  }

  function StepExitOpen(cfg: Config, s: State, t: Thread, ret: int, room: bool): State {
    if t !in s.inflightOpen then s else
      var v, s1 := s.inflightOpen[t], s.(inflightOpen := s.inflightOpen - {t});
      if ret < 0 then s1
      else s1.(fdPaths := s.fdPaths[FdKey(t.tgid, U32(ret)) := v],
               events := s.events + Sent(cfg, t, OpenOp, v, 0, room))
  }

  function StepEnterWrite(s: State, t: Thread, fd: nat, count: nat, room: bool): State {
    if count == 0 || !room then s else s.(inflightWrite := s.inflightWrite[t := U32(fd)])
  }

  function StepExitWrite(s: State, t: Thread, ret: int): State {
    if t !in s.inflightWrite then s else
      var key, s1 := FdKey(t.tgid, s.inflightWrite[t]), s.(inflightWrite := s.inflightWrite - {t});
      if ret <= 0 || key !in s.fdPaths then s1
      else
        var v := s.fdPaths[key];
        s1.(fdPaths := s.fdPaths[key := v.(writeBytes := (v.writeBytes + ret) % TWO64, wrote := true)])
  }

  function StepMmap(cfg: Config, s: State, t: Thread, fd: int, write: bool, room: bool): State {
    var key := FdKey(t.tgid, U32(fd));
    if fd < 0 || key !in s.fdPaths then s else
      var v := s.fdPaths[key];
      if !write && !v.mappedRead then
        s.(fdPaths := s.fdPaths[key := v.(mappedRead := true)],
           events := s.events + Sent(cfg, t, MmapReadOp, v, 0, room))
      else if write && !v.mappedWrite then
        s.(fdPaths := s.fdPaths[key := v.(mappedWrite := true)],
           events := s.events + Sent(cfg, t, MmapWriteOp, v, 0, room))
      else s
  }

  function StepClose(cfg: Config, s: State, t: Thread, fd: nat, room: bool): State {
    var key := FdKey(t.tgid, U32(fd));
    if key !in s.fdPaths then s else
      var v := s.fdPaths[key];
      s.(fdPaths := s.fdPaths - {key},
         events := s.events + if v.wrote then Sent(cfg, t, WriteOp, v, v.writeBytes, room) else [])
  }

  function Step(cfg: Config, s: State, p: Probe): State {
    match p
    case EnterOpen(t, dirfd, user, flags, room) => StepEnterOpen(cfg, s, t, dirfd, user, flags, room)
    case ExitOpen(t, ret, room) => StepExitOpen(cfg, s, t, ret, room)
    case EnterWrite(t, fd, count, room) => StepEnterWrite(s, t, fd, count, room)
    case ExitWrite(t, ret) => StepExitWrite(s, t, ret)
    case Mmap(t, fd, write, room) => StepMmap(cfg, s, t, fd, write, room)
    case Close(t, fd, room) => StepClose(cfg, s, t, fd, room)
    case Evict(key) => s.(fdPaths := s.fdPaths - {key})
  }

  /** The state before probe number `n`. */
  function StateAt(cfg: Config, trace: seq<Probe>, n: nat): State
    requires n <= |trace|
  {
    if n == 0 then State(map[], map[], map[], []) else Step(cfg, StateAt(cfg, trace, n - 1), trace[n - 1])
  }

  // ---------- what the trace says, read without the maps ----------

  /** The descriptor of the write a thread is inside, if any. */
  function PendingWrite(trace: seq<Probe>, n: nat, t: Thread): Option<nat>
    requires n <= |trace|
  {
    if n == 0 then None else
      var p := trace[n - 1];
      if p.EnterWrite? && p.t == t && p.count != 0 && p.room then Some(U32(p.fd))
      else if p.ExitWrite? && p.t == t then None
      else PendingWrite(trace, n - 1, t)
  }

  /** The bytes that probe number `i` credits to a descriptor. */
  function CreditAt(trace: seq<Probe>, i: nat, key: FdKey): nat
    requires i < |trace|
  {
    var p := trace[i];
    if p.ExitWrite? && p.ret > 0 && p.t.tgid == key.tgid && PendingWrite(trace, i, p.t) == Some(key.fd)
    then p.ret else 0
  }

  function CreditSum(trace: seq<Probe>, lo: nat, hi: nat, key: FdKey): nat
    requires lo <= hi <= |trace|
    decreases hi
  {
    if lo == hi then 0 else CreditSum(trace, lo, hi - 1, key) + CreditAt(trace, hi - 1, key)
  }

  /** Probe number `i` installs an entry for the descriptor. */
  predicate InstallsAt(cfg: Config, trace: seq<Probe>, i: nat, key: FdKey)
    requires i < |trace|
  {
    var p := trace[i];
    p.ExitOpen? && p.ret >= 0 && key == FdKey(p.t.tgid, U32(p.ret)) && p.t in StateAt(cfg, trace, i).inflightOpen
  }

  predicate RemovesAt(trace: seq<Probe>, i: nat, key: FdKey)
    requires i < |trace|
  {
    var p := trace[i];
    (p.Close? && key == FdKey(p.t.tgid, U32(p.fd))) || (p.Evict? && p.key == key)
  }

  /** The open whose lifetime the descriptor is in before probe number `n`. */
  function OpenedAt(cfg: Config, trace: seq<Probe>, n: nat, key: FdKey): (o: Option<nat>)
    requires n <= |trace|
    ensures o.Some? ==> o.value < n && InstallsAt(cfg, trace, o.value, key)
    ensures o.Some? ==> forall i :: o.value < i < n ==> !InstallsAt(cfg, trace, i, key) && !RemovesAt(trace, i, key)
  {
    if n == 0 then None
    else if InstallsAt(cfg, trace, n - 1, key) then Some(n - 1)
    else if RemovesAt(trace, n - 1, key) then None
    else OpenedAt(cfg, trace, n - 1, key)
  }

  /** Some probe of the lifetime maps the descriptor for reading, or for writing. */
  ghost predicate Mapped(trace: seq<Probe>, lo: nat, hi: nat, key: FdKey, write: bool)
    requires hi <= |trace|
  {
    exists i :: lo <= i < hi && MapsAt(trace, i, key, write)
  }

  predicate MapsAt(trace: seq<Probe>, i: nat, key: FdKey, write: bool)
    requires i < |trace|
  {
    var p := trace[i];
    p.Mmap? && p.mapFd >= 0 && p.write == write && key == FdKey(p.t.tgid, U32(p.mapFd))
  }

  // ---------- the maps hold what the trace says ----------

  lemma {:induction false} InflightWriteIsPending(cfg: Config, trace: seq<Probe>, n: nat, t: Thread)
    requires n <= |trace|
    ensures var w := StateAt(cfg, trace, n).inflightWrite;
            PendingWrite(trace, n, t) == if t in w then Some(w[t]) else None
  {
    if n > 0 {
      InflightWriteIsPending(cfg, trace, n - 1, t);
    }
  }

  /** The path that probe number `i`, the entry of an open, resolves to. */
  function PathAt(cfg: Config, trace: seq<Probe>, i: nat): Option<bytes>
    requires i < |trace| && trace[i].EnterOpen?
  {
    var p := trace[i];
    Resolve(cfg.cut, PathsOf(StateAt(cfg, trace, i).fdPaths), p.t.tgid, p.dirfd, p.user)
  }

  /** The open a thread is inside, if it is one that gets tracked. */
  function PendingOpen(cfg: Config, trace: seq<Probe>, n: nat, t: Thread): (o: Option<nat>)
    requires n <= |trace|
    ensures o.Some? ==>
              o.value < n && trace[o.value].EnterOpen? && trace[o.value].t == t && PathAt(cfg, trace, o.value).Some?
  {
    if n == 0 then None else
      var p := trace[n - 1];
      if && p.EnterOpen? && p.t == t && p.room
         && PathAt(cfg, trace, n - 1).Some? && !cfg.noise(PathAt(cfg, trace, n - 1).value)
      then Some(n - 1)
      else if p.ExitOpen? && p.t == t then None
      else PendingOpen(cfg, trace, n - 1, t)
  }

  function Asked(cfg: Config, trace: seq<Probe>, o: nat): PathValue
    requires o < |trace| && trace[o].EnterOpen? && PathAt(cfg, trace, o).Some?
  {
    PathValue(PathAt(cfg, trace, o).value, trace[o].flags, 0, false, false, false)
  }

  lemma {:induction false} InflightOpenIsPending(cfg: Config, trace: seq<Probe>, n: nat, t: Thread)
    requires n <= |trace|
    ensures var m, o := StateAt(cfg, trace, n).inflightOpen, PendingOpen(cfg, trace, n, t);
            (t in m <==> o.Some?) && (o.Some? ==> m[t] == Asked(cfg, trace, o.value))
  {
    if n > 0 {
      InflightOpenIsPending(cfg, trace, n - 1, t);
      OpenTableStep(cfg, StateAt(cfg, trace, n - 1), trace[n - 1], t);
    }
  }

  /** What one probe does to the entry of a thread in the table of opens. */
  lemma OpenTableStep(cfg: Config, s: State, p: Probe, t: Thread)
    ensures var m, m' := s.inflightOpen, Step(cfg, s, p).inflightOpen;
            if p.EnterOpen? && p.t == t then
              var r := Resolve(cfg.cut, PathsOf(s.fdPaths), t.tgid, p.dirfd, p.user);
              if r.None? || cfg.noise(r.value) || !p.room then (t in m' <==> t in m) && (t in m ==> m'[t] == m[t])
              else t in m' && m'[t] == PathValue(r.value, p.flags, 0, false, false, false)
            else if p.ExitOpen? && p.t == t then t !in m'
            else (t in m' <==> t in m) && (t in m ==> m'[t] == m[t])
  {
  }

  /** What a lifetime has seen so far. */
  ghost predicate Accounts(trace: seq<Probe>, o: nat, n: nat, key: FdKey, v: PathValue)
    requires o < n <= |trace|
  {
    && v.writeBytes == CreditSum(trace, o + 1, n, key) % TWO64
    && (v.wrote <==> CreditSum(trace, o + 1, n, key) > 0)
    && (v.mappedRead <==> Mapped(trace, o + 1, n, key, false))
    && (v.mappedWrite <==> Mapped(trace, o + 1, n, key, true))
  }

  /** Nothing of a lifetime has been seen right after the open. */
  lemma AccountsStart(trace: seq<Probe>, o: nat, key: FdKey, v: PathValue)
    requires o < |trace| && v.writeBytes == 0 && !v.wrote && !v.mappedRead && !v.mappedWrite
    ensures Accounts(trace, o, o + 1, key, v)
  {
  }

  /** What one probe adds to the entry of a descriptor. */
  function Updated(trace: seq<Probe>, n: nat, key: FdKey, v: PathValue): PathValue
    requires n < |trace|
  {
    var c := CreditAt(trace, n, key);
    v.(writeBytes := (v.writeBytes + c) % TWO64, wrote := v.wrote || c > 0,
       mappedRead := v.mappedRead || MapsAt(trace, n, key, false),
       mappedWrite := v.mappedWrite || MapsAt(trace, n, key, true))
  }

  lemma WrapAdd(sum: nat, c: nat)
    ensures (sum % TWO64 + c) % TWO64 == (sum + c) % TWO64
  {
  }

  lemma AccountsStep(trace: seq<Probe>, o: nat, n: nat, key: FdKey, v: PathValue)
    requires o < n < |trace| && Accounts(trace, o, n, key, v)
    ensures Accounts(trace, o, n + 1, key, Updated(trace, n, key, v))
  {
    var c, sum := CreditAt(trace, n, key), CreditSum(trace, o + 1, n, key);
    assert CreditSum(trace, o + 1, n + 1, key) == sum + c;
    WrapAdd(sum, c);
    MappedStep(trace, o + 1, n, key, false);
    MappedStep(trace, o + 1, n, key, true);
  }

  lemma MappedStep(trace: seq<Probe>, lo: nat, n: nat, key: FdKey, write: bool)
    requires lo <= n < |trace|
    ensures Mapped(trace, lo, n + 1, key, write) <==> Mapped(trace, lo, n, key, write) || MapsAt(trace, n, key, write)
  {
  }

  lemma EntryStep(cfg: Config, trace: seq<Probe>, n: nat, key: FdKey)
    requires n < |trace|
    requires var m := StateAt(cfg, trace, n).fdPaths; key in m ==> m[key].writeBytes < TWO64
    ensures var m, m' := StateAt(cfg, trace, n).fdPaths, StateAt(cfg, trace, n + 1).fdPaths;
            if InstallsAt(cfg, trace, n, key) then
              key in m' && m'[key] == StateAt(cfg, trace, n).inflightOpen[trace[n].t]
            else if RemovesAt(trace, n, key) then key !in m'
            else (key in m' <==> key in m) && (key in m ==> m'[key] == Updated(trace, n, key, m[key]))
  {
    var s, p := StateAt(cfg, trace, n), trace[n];
    PathTableStep(cfg, s, p, key);
    if p.ExitWrite? {
      InflightWriteIsPending(cfg, trace, n, p.t);
    }
  }

  /** What a write or a mapping does to the entry of a descriptor. */
  function Touched(s: State, p: Probe, key: FdKey, v: PathValue): PathValue {
    if p.ExitWrite? && p.ret > 0 && p.t in s.inflightWrite && key == FdKey(p.t.tgid, s.inflightWrite[p.t]) then
      v.(writeBytes := (v.writeBytes + p.ret) % TWO64, wrote := true)
    else if p.Mmap? && p.mapFd >= 0 && key == FdKey(p.t.tgid, U32(p.mapFd)) then
      if p.write then v.(mappedWrite := true) else v.(mappedRead := true)
    else v
  }

  /** What one probe does to the entry of a descriptor. */
  lemma PathTableStep(cfg: Config, s: State, p: Probe, key: FdKey)
    ensures var m, m' := s.fdPaths, Step(cfg, s, p).fdPaths;
            if p.ExitOpen? && p.ret >= 0 && key == FdKey(p.t.tgid, U32(p.ret)) && p.t in s.inflightOpen then
              key in m' && m'[key] == s.inflightOpen[p.t]
            else if (p.Close? && key == FdKey(p.t.tgid, U32(p.fd))) || (p.Evict? && p.key == key) then key !in m'
            else (key in m' <==> key in m) && (key in m ==> m'[key] == Touched(s, p, key, m[key]))
  {
  }

  /** The open that began a lifetime, as it was remembered. */
  function OpenAs(cfg: Config, trace: seq<Probe>, o: nat, key: FdKey): PathValue
    requires o < |trace| && InstallsAt(cfg, trace, o, key)
  {
    StateAt(cfg, trace, o).inflightOpen[trace[o].t]
  }

  /** The entry of a lifetime. */
  ghost predicate EntryOf(cfg: Config, trace: seq<Probe>, o: nat, n: nat, key: FdKey, v: PathValue)
    requires o < n <= |trace| && InstallsAt(cfg, trace, o, key)
  {
    var first := OpenAs(cfg, trace, o, key);
    v.path == first.path && v.flags == first.flags && Accounts(trace, o, n, key, v)
  }

  lemma EntryStarts(cfg: Config, trace: seq<Probe>, o: nat, key: FdKey)
    requires o < |trace| && InstallsAt(cfg, trace, o, key)
    ensures EntryOf(cfg, trace, o, o + 1, key, OpenAs(cfg, trace, o, key))
  {
    InflightOpenIsPending(cfg, trace, o, trace[o].t);
    AccountsStart(trace, o, key, OpenAs(cfg, trace, o, key));
  }

  lemma EntryGoesOn(cfg: Config, trace: seq<Probe>, o: nat, n: nat, key: FdKey, v: PathValue)
    requires o < n < |trace| && InstallsAt(cfg, trace, o, key) && EntryOf(cfg, trace, o, n, key, v)
    ensures EntryOf(cfg, trace, o, n + 1, key, Updated(trace, n, key, v))
  {
    AccountsStep(trace, o, n, key, v);
  }

  /**
   A descriptor is tracked exactly from its open to its close or eviction, under the path
   and flags of that open, and its entry accounts for everything in between.
   */
  lemma {:induction false} EntryAccounts(cfg: Config, trace: seq<Probe>, n: nat, key: FdKey)
    requires n <= |trace|
    ensures var m, o := StateAt(cfg, trace, n).fdPaths, OpenedAt(cfg, trace, n, key);
            (key in m <==> o.Some?) && (o.Some? ==> EntryOf(cfg, trace, o.value, n, key, m[key]))
  {
    if n > 0 {
      EntryAccounts(cfg, trace, n - 1, key);
      EntryStep(cfg, trace, n - 1, key);
      var o := OpenedAt(cfg, trace, n, key);
      if InstallsAt(cfg, trace, n - 1, key) {
        EntryStarts(cfg, trace, n - 1, key);
      } else if o.Some? {
        EntryGoesOn(cfg, trace, o.value, n - 1, key, StateAt(cfg, trace, n - 1).fdPaths[key]);
      }
    }
  }

  // ---------- what is reported ----------

  /**
   Closing reports one write with the sum of what the writes of that lifetime returned
   (modulo 2^64), and nothing when they returned nothing.
   */
  lemma CloseReportsWrites(cfg: Config, trace: seq<Probe>, n: nat)
    requires n < |trace| && trace[n].Close?
    ensures var t, key := trace[n].t, FdKey(trace[n].t.tgid, U32(trace[n].fd));
            var o, events := OpenedAt(cfg, trace, n, key), StateAt(cfg, trace, n).events;
            StateAt(cfg, trace, n + 1).events ==
              if o.Some? && CreditSum(trace, o.value + 1, n, key) > 0 then
                events + Sent(cfg, t, WriteOp, OpenAs(cfg, trace, o.value, key),
                    CreditSum(trace, o.value + 1, n, key) % TWO64, trace[n].room)
              else events
  {
    var key := FdKey(trace[n].t.tgid, U32(trace[n].fd));
    EntryAccounts(cfg, trace, n, key);
    var events := StateAt(cfg, trace, n).events;
    assert events + [] == events;
  }

  /** A successful exit reports the open that the thread entered, under the path resolved then. */
  lemma ExitReportsOpen(cfg: Config, trace: seq<Probe>, n: nat)
    requires n < |trace| && trace[n].ExitOpen?
    ensures var t, o := trace[n].t, PendingOpen(cfg, trace, n, trace[n].t);
            StateAt(cfg, trace, n + 1).events == StateAt(cfg, trace, n).events +
              if o.Some? && trace[n].ret >= 0 then Sent(cfg, t, OpenOp, Asked(cfg, trace, o.value), 0, trace[n].room)
              else []
  {
    InflightOpenIsPending(cfg, trace, n, trace[n].t);
    var events := StateAt(cfg, trace, n).events;
    assert events + [] == events;
  }

  /** Only a close reports a write. */
  lemma WritesComeFromCloses(cfg: Config, trace: seq<Probe>, n: nat)
    requires n < |trace| && !trace[n].Close?
    ensures var before, after := StateAt(cfg, trace, n).events, StateAt(cfg, trace, n + 1).events;
            before <= after && forall e :: e in after[|before|..] ==> !e.op.WriteOp?
  {
  }

  /** Probe number `i` reports a mapping of the descriptor. */
  predicate ReportsMapping(cfg: Config, trace: seq<Probe>, i: nat, key: FdKey, write: bool)
    requires i < |trace|
  {
    MapsAt(trace, i, key, write) && StateAt(cfg, trace, i + 1).events != StateAt(cfg, trace, i).events
  }

  /** It is reported exactly when it is the first of its kind since the open and the event gets through. */
  lemma MappingReportedIff(cfg: Config, trace: seq<Probe>, i: nat, key: FdKey, write: bool)
    requires i < |trace| && MapsAt(trace, i, key, write)
    ensures var o := OpenedAt(cfg, trace, i, key);
            ReportsMapping(cfg, trace, i, key, write) <==>
              && o.Some? && !Mapped(trace, o.value + 1, i, key, write) && trace[i].room
              && !cfg.drop(OpenAs(cfg, trace, o.value, key).path, if write then MmapWriteOp else MmapReadOp)
  {
    EntryAccounts(cfg, trace, i, key);
  }

  /** Two reports of one kind for a descriptor have an open of it in between. */
  lemma OneMappingPerLifetime(cfg: Config, trace: seq<Probe>, i: nat, j: nat, key: FdKey, write: bool)
    requires i < j < |trace| && ReportsMapping(cfg, trace, i, key, write) && ReportsMapping(cfg, trace, j, key, write)
    ensures exists k :: i < k < j && InstallsAt(cfg, trace, k, key)
  {
    MappingReportedIff(cfg, trace, i, key, write);
    MappingReportedIff(cfg, trace, j, key, write);
    var o := OpenedAt(cfg, trace, j, key).value;
    if o <= i {
      assert o != i;
      assert MapsAt(trace, i, key, write);
      assert Mapped(trace, o + 1, j, key, write);
    }
  }

  // ---------- paths through chains of relative opens ----------

  /** /proc/, /sys/, /dev/pts/, /dev/shm/ and /run/ */
  const NOISE_PREFIXES: seq<bytes> := [
    [0x2F, 0x70, 0x72, 0x6F, 0x63, 0x2F], [0x2F, 0x73, 0x79, 0x73, 0x2F],
    [0x2F, 0x64, 0x65, 0x76, 0x2F, 0x70, 0x74, 0x73, 0x2F], [0x2F, 0x64, 0x65, 0x76, 0x2F, 0x73, 0x68, 0x6D, 0x2F],
    [0x2F, 0x72, 0x75, 0x6E, 0x2F]]

  predicate IsNoisePath(path: bytes) {
    exists i :: 0 <= i < |NOISE_PREFIXES| && NOISE_PREFIXES[i] <= path
  }

  /** The filter decides the same on a cut path as on the whole one. */
  ghost predicate IgnoresCut(noise: bytes -> bool) {
    forall p :: noise(Cut(p)) == noise(p)
  }

  lemma NoiseIgnoresCut()
    ensures IgnoresCut(IsNoisePath)
  {
    forall p ensures IsNoisePath(Cut(p)) == IsNoisePath(p) {
      forall i | 0 <= i < |NOISE_PREFIXES| ensures NOISE_PREFIXES[i] <= Cut(p) <==> NOISE_PREFIXES[i] <= p {
        assert |NOISE_PREFIXES[i]| <= 9;
      }
    }
  }

  function Whole(p: bytes): bytes {
    p
  }

  predicate Mirrors(kept: PathValue, ideal: PathValue) {
    ideal.path != [] && kept == ideal.(path := Cut(ideal.path))
  }

  ghost predicate Mirror<K(!new)>(kept: map<K, PathValue>, ideal: map<K, PathValue>) {
    kept.Keys == ideal.Keys && forall k :: k in ideal ==> Mirrors(kept[k], ideal[k])
  }

  /** Buffers cut each name and each join, but what comes out is the whole path, cut once. */
  lemma ResolveMirrors(
      kept: map<FdKey, PathValue>, ideal: map<FdKey, PathValue>, tgid: nat, dirfd: int, user: Option<bytes>)
    requires Mirror(kept, ideal)
    ensures var r := Resolve(Cut, PathsOf(kept), tgid, dirfd, user);
            var whole := Resolve(Whole, PathsOf(ideal), tgid, dirfd, user);
            r.Some? == whole.Some? && (r.Some? ==> whole.value != [] && r.value == Cut(whole.value))
  {
    var key := FdKey(tgid, U32(dirfd));
    if user.Some? && user.value != [] && key in ideal {
      assert Mirrors(kept[key], ideal[key]);
      CutJoin(ideal[key].path, user.value);
    }
  }

  lemma {:induction false} PathsAreCutOnce(noise: bytes -> bool, drop: (bytes, Op) -> bool, trace: seq<Probe>, n: nat)
    requires n <= |trace| && IgnoresCut(noise)
    ensures Alike(StateAt(Config(Cut, noise, drop), trace, n), StateAt(Config(Whole, noise, drop), trace, n))
  {
    if n > 0 {
      PathsAreCutOnce(noise, drop, trace, n - 1);
      var a, b, p := Config(Cut, noise, drop), Config(Whole, noise, drop), trace[n - 1];
      var kept, ideal := StateAt(a, trace, n - 1), StateAt(b, trace, n - 1);
      if p.EnterOpen? {
        OpenStaysAlike(a, b, kept, ideal, p);
      } else if p.Mmap? {
        MmapStaysAlike(a, b, kept, ideal, p.t, p.mapFd, p.write, p.room);
      } else if p.ExitWrite? {
        WriteStaysAlike(kept, ideal, p.t, p.ret);
      } else {
        RestStaysAlike(a, b, kept, ideal, p);
      }
    }
  }

  ghost predicate Alike(kept: State, ideal: State) {
    && Mirror(kept.inflightOpen, ideal.inflightOpen) && Mirror(kept.fdPaths, ideal.fdPaths)
    && kept.inflightWrite == ideal.inflightWrite
  }

  lemma OpenStaysAlike(a: Config, b: Config, kept: State, ideal: State, p: Probe)
    requires a.cut == Cut && b.cut == Whole && a.noise == b.noise && IgnoresCut(a.noise)
    requires Alike(kept, ideal) && p.EnterOpen?
    ensures Alike(Step(a, kept, p), Step(b, ideal, p))
  {
    ResolveMirrors(kept.fdPaths, ideal.fdPaths, p.t.tgid, p.dirfd, p.user);
  }

  lemma RestStaysAlike(a: Config, b: Config, kept: State, ideal: State, p: Probe)
    requires Alike(kept, ideal) && !p.EnterOpen? && !p.Mmap? && !p.ExitWrite?
    ensures Alike(Step(a, kept, p), Step(b, ideal, p))
  {
  }

  lemma MirrorUpdate(kept: map<FdKey, PathValue>, ideal: map<FdKey, PathValue>, key: FdKey, v: PathValue, w: PathValue)
    requires Mirror(kept, ideal) && Mirrors(v, w)
    ensures Mirror(kept[key := v], ideal[key := w])
  {
  }

  lemma WriteStaysAlike(kept: State, ideal: State, t: Thread, ret: int)
    requires Alike(kept, ideal)
    ensures Alike(StepExitWrite(kept, t, ret), StepExitWrite(ideal, t, ret))
  {
    if t in kept.inflightWrite && ret > 0 && FdKey(t.tgid, kept.inflightWrite[t]) in kept.fdPaths {
      var key := FdKey(t.tgid, kept.inflightWrite[t]);
      var v, w := kept.fdPaths[key], ideal.fdPaths[key];
      assert Mirrors(v, w);
      var total := (v.writeBytes + ret) % TWO64;
      MirrorUpdate(kept.fdPaths, ideal.fdPaths, key,
                   v.(writeBytes := total, wrote := true), w.(writeBytes := total, wrote := true));
    }
  }

  lemma MmapStaysAlike(a: Config, b: Config, kept: State, ideal: State, t: Thread, fd: int, write: bool, room: bool)
    requires Alike(kept, ideal)
    ensures Alike(StepMmap(a, kept, t, fd, write, room), StepMmap(b, ideal, t, fd, write, room))
  {
    var key := FdKey(t.tgid, U32(fd));
    if key in kept.fdPaths {
      var v, w := kept.fdPaths[key], ideal.fdPaths[key];
      assert Mirrors(v, w);
      if write {
        MirrorUpdate(kept.fdPaths, ideal.fdPaths, key, v.(mappedWrite := true), w.(mappedWrite := true));
      } else {
        MirrorUpdate(kept.fdPaths, ideal.fdPaths, key, v.(mappedRead := true), w.(mappedRead := true));
      }
    }
  }

  // ---------- the probes ----------

  lemma StringsOfStrings(paths: map<FdKey, bytes>)
    requires forall k :: k in paths ==> IsString(paths[k])
    ensures Strings(paths) == paths
  {
    forall k | k in paths ensures CStr(paths[k]) == paths[k] {
      CStrIs(paths[k], paths[k]);
    }
  }

  class FileTracer {
    const cfg: Config
    var inflightOpen: map<Thread, PathValue>
    var inflightWrite: map<Thread, nat>
    var fdPaths: map<FdKey, PathValue>
    var events: seq<Event>

    ghost predicate Valid()
      reads this
    {
      && cfg.cut == Cut
      && (forall t :: t in inflightOpen ==> IsString(inflightOpen[t].path))
      && (forall k :: k in fdPaths ==> IsString(fdPaths[k].path))
    }

    ghost function View(): State
      reads this
    {
      State(inflightOpen, inflightWrite, fdPaths, events)
    }

    constructor (noise: bytes -> bool, drop: (bytes, Op) -> bool)
      ensures Valid() && cfg == Config(Cut, noise, drop) && View() == StateAt(cfg, [], 0)
    {
      cfg := Config(Cut, noise, drop);
      inflightOpen, inflightWrite, fdPaths, events := map[], map[], map[], [];
    }

    method Submit(t: Thread, op: Op, v: PathValue, n: nat, room: bool)
      modifies this`events
      ensures events == old(events) + Sent(cfg, t, op, v, n, room)
    {
      if !cfg.drop(v.path, op) && room {
        events := events + [Event(t, op, v.path, v.flags, n)];
      }
    }

    method RememberOpenPath(t: Thread, dirfd: int, user: Option<bytes>, flags: nat, room: bool)
      requires Valid() && (user.Some? ==> IsString(user.value))
      modifies this
      ensures Valid() && View() == Step(cfg, old(View()), EnterOpen(t, dirfd, user, flags, room))
    {
      var paths := PathsOf(fdPaths);
      StringsOfStrings(paths);
      var buffer := new byte[MAX_PATH_SIZE];
      var ok := ResolveDirfdPath(buffer, paths, t.tgid, dirfd, user);
      if !ok {
        return;
      }
      var path := CStr(buffer[..]);
      CStrShape(buffer[..]);
      if !cfg.noise(path) && room {
        inflightOpen := inflightOpen[t := PathValue(path, flags, 0, false, false, false)];
      }
    }

    method FinalizeOpenFd(t: Thread, ret: int, room: bool)
      requires Valid()
      modifies this
      ensures Valid() && View() == Step(cfg, old(View()), ExitOpen(t, ret, room))
    {
      if t !in inflightOpen {
        return;
      }
      var path := inflightOpen[t];
      if ret >= 0 {
        fdPaths := fdPaths[FdKey(t.tgid, U32(ret)) := path];
        Submit(t, OpenOp, path, 0, room);
      }
      inflightOpen := inflightOpen - {t};
    }

    method TraceWrite(t: Thread, fd: nat, count: nat, room: bool)
      requires Valid()
      modifies this
      ensures Valid() && View() == Step(cfg, old(View()), EnterWrite(t, fd, count, room))
    {
      if count != 0 && room {
        inflightWrite := inflightWrite[t := U32(fd)];
      }
    }

    method TraceExitWrite(t: Thread, ret: int)
      requires Valid()
      modifies this
      ensures Valid() && View() == Step(cfg, old(View()), ExitWrite(t, ret))
    {
      if t !in inflightWrite {
        return;
      }
      var key := FdKey(t.tgid, inflightWrite[t]);
      if ret > 0 && key in fdPaths {
        var path := fdPaths[key];
        fdPaths := fdPaths[key := path.(writeBytes := (path.writeBytes + ret) % TWO64, wrote := true)];
      }
      inflightWrite := inflightWrite - {t};
    }

    method TraceMmap(t: Thread, fd: int, write: bool, room: bool)
      requires Valid()
      modifies this
      ensures Valid() && View() == Step(cfg, old(View()), Mmap(t, fd, write, room))
    {
      var key := FdKey(t.tgid, U32(fd));
      if fd < 0 || key !in fdPaths {
        return;
      }
      var path := fdPaths[key];
      if !write && !path.mappedRead {
        fdPaths := fdPaths[key := path.(mappedRead := true)];
        Submit(t, MmapReadOp, path, 0, room);
      }
      if write && !path.mappedWrite {
        fdPaths := fdPaths[key := path.(mappedWrite := true)];
        Submit(t, MmapWriteOp, path, 0, room);
      }
    }

    method TraceClose(t: Thread, fd: nat, room: bool)
      requires Valid()
      modifies this
      ensures Valid() && View() == Step(cfg, old(View()), Close(t, fd, room))
    {
      var key := FdKey(t.tgid, U32(fd));
      if key !in fdPaths {
        return;
      }
      var path := fdPaths[key];
      if path.wrote {
        Submit(t, WriteOp, path, path.writeBytes, room);
      }
      fdPaths := fdPaths - {key};
    }
  }
}
