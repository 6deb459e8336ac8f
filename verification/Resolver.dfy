/**
 The container-ID cache (internal/container/containerid.go) under every interleaving of
 any number of threads.  A call of Resolve is a sequence of atomic steps: loads and stores
 of the shared fields, clock readings, lock and unlock, and the directory walk, whose
 result and duration are arbitrary.  Clock readings are arbitrary too.
 */
module Resolver {
  import opened Common

  const UPDATE_INTERVAL := 5_000_000_000
  const UPDATE_INTERVAL_ON_ERROR := 1_000_000_000

  type Thread = nat
  type Table = map<nat, string>

  /** A container ID, or the answer for a cgroup that has none as far as is known. */
  datatype Answer = Container(cid: string) | NonContainer

  /** Where a call is; `since` numbers the table that was current when the call began. */
  datatype Pc =
    | Idle
    | Load(id: nat, since: nat)
    | Negative(id: nat, since: nat)
    | Clock(id: nat, since: nat)
    | Check(id: nat, since: nat, now: int)
    | Acquire(id: nat, since: nat)
    | Recheck(id: nat, since: nat)
    | ClockAgain(id: nat, since: nat)
    | CheckAgain(id: nat, since: nat, now: int)
    | Walking(id: nat, since: nat)
    | Walked(id: nat, since: nat, renew: Option<Table>)
    | Store(id: nat, since: nat, now: int, renew: Option<Table>)
    | Schedule(id: nat, since: nat, now: int, renew: Option<Table>)
    | Final(id: nat, since: nat, renew: Option<Table>)
    | Remember(id: nat, since: nat)
    | Release(id: nat, since: nat, answer: Answer)
    | Return(id: nat, since: nat, answer: Answer)

  /** A directory walk: the reading that let it start, and once over its result and the reading after it. */
  datatype Walk = Running(started: int) | Ended(started: int, ended: int, renew: Option<Table>)

  /** An answer given, with the tables current at the beginning and at the end of the call. */
  datatype Reply = Reply(id: nat, answer: Answer, since: nat, until: nat)

  /** `tables` and `walks` hold the history; the current table is the last one. */
  datatype State = State(
    pcs: map<Thread, Pc>, owner: Option<Thread>, tables: seq<Table>, nextUpdate: int, nonContainer: set<nat>,
    walks: seq<Walk>, replies: seq<Reply>)

  /** A thread begins a call, a thread takes its next step, or a negative entry expires. */
  datatype Action = Begin(t: Thread, id: nat) | Go(t: Thread, now: int, walk: Option<Table>) | Expire(id: nat)

  function PcOf(s: State, t: Thread): Pc {
    if t in s.pcs then s.pcs[t] else Idle
  }

  /** The number of the current table. */
  function Latest(s: State): nat {
    if s.tables == [] then 0 else |s.tables| - 1
  }

  function Current(s: State): Table {
    if s.tables == [] then map[] else s.tables[Latest(s)]
  }

  function Interval(renew: Option<Table>): int {
    if renew.Some? then UPDATE_INTERVAL else UPDATE_INTERVAL_ON_ERROR
  }

  /** Where a step leads the thread that takes it. */
  function Target(s: State, pc: Pc, now: int, walk: Option<Table>): Pc {
    match pc
    case Idle => Idle
    case Load(id, since) =>
      if id in Current(s) then Return(id, since, Container(Current(s)[id])) else Negative(id, since)
    case Negative(id, since) => if id in s.nonContainer then Return(id, since, NonContainer) else Clock(id, since)
    case Clock(id, since) => Check(id, since, now)
    case Check(id, since, read) => if read < s.nextUpdate then Return(id, since, NonContainer) else Acquire(id, since)
    case Acquire(id, since) => if s.owner.Some? then pc else Recheck(id, since)
    case Recheck(id, since) =>
      if id in Current(s) then Release(id, since, Container(Current(s)[id])) else ClockAgain(id, since)
    case ClockAgain(id, since) => CheckAgain(id, since, now)
    case CheckAgain(id, since, read) =>
      if read < s.nextUpdate then Release(id, since, NonContainer) else Walking(id, since)
    case Walking(id, since) => Walked(id, since, walk)
    case Walked(id, since, renew) => Store(id, since, now, renew)
    case Store(id, since, read, renew) => Schedule(id, since, read, renew)
    case Schedule(id, since, read, renew) => Final(id, since, renew)
    case Final(id, since, renew) =>
      if id in Current(s) then Release(id, since, Container(Current(s)[id]))
      else if renew.Some? then Remember(id, since) else Release(id, since, NonContainer)
    case Remember(id, since) => Release(id, since, NonContainer)
    case Release(id, since, answer) => Return(id, since, answer)
    case Return(_, _, _) => Idle
  }

  function EndLast(walks: seq<Walk>, now: int, renew: Option<Table>): seq<Walk> {
    if walks == [] then [] else
      var n := |walks| - 1;
      walks[n := Ended(walks[n].started, now, renew)]
  }

  predicate Inside(pc: Pc) {
    pc.Recheck? || pc.ClockAgain? || pc.CheckAgain? || pc.Walking? || pc.Walked? || pc.Store? || pc.Schedule?
    || pc.Final? || pc.Remember? || pc.Release?
  }

  function WalksAfter(s: State, pc: Pc, now: int): seq<Walk> {
    if pc.CheckAgain? && pc.now >= s.nextUpdate then s.walks + [Running(pc.now)]
    else if pc.Walked? then EndLast(s.walks, now, pc.renew)
    else s.walks
  }

  /** The next step of a thread: at most one shared field changes, and only at these points. */
  function Next(s: State, t: Thread, now: int, walk: Option<Table>): State {
    var pc := PcOf(s, t);
    State(
      s.pcs[t := Target(s, pc, now, walk)],
      if pc.Acquire? && s.owner.None? then Some(t) else if pc.Release? then None else s.owner,
      if pc.Store? && pc.renew.Some? then s.tables + [pc.renew.value] else s.tables,
      if pc.Schedule? then pc.now + Interval(pc.renew) else s.nextUpdate,
      if pc.Remember? then s.nonContainer + {pc.id} else s.nonContainer,
      WalksAfter(s, pc, now),
      if pc.Return? then s.replies + [Reply(pc.id, pc.answer, pc.since, Latest(s))] else s.replies)
  }

  function Step(s: State, a: Action): State {
    match a
    case Begin(t, id) => if PcOf(s, t).Idle? then s.(pcs := s.pcs[t := Load(id, Latest(s))]) else s
    case Go(t, now, walk) => Next(s, t, now, walk)
    case Expire(id) => s.(nonContainer := s.nonContainer - {id})
  }

  /** The resolver as constructed. */
  function Initial(start: int): State {
    State(map[], None, [map[]], start, {}, [], [])
  }

  /** The resolver after any actions. */
  function Run(start: int, actions: seq<Action>): State {
    if actions == [] then Initial(start)
    else Step(Run(start, actions[..|actions| - 1]), actions[|actions| - 1])
  }

  // ---------- one walk at a time ----------

  predicate Exclusive(s: State, t: Thread) {
    Inside(PcOf(s, t)) <==> s.owner == Some(t)
  }

  lemma ExclusiveStep(s: State, a: Action, t: Thread, u: Thread)
    requires Exclusive(s, t) && Exclusive(s, u) && (a.Begin? || a.Go? ==> a.t == u)
    ensures Exclusive(Step(s, a), t)
  {
  }

  lemma {:induction false} LockIsExclusive(start: int, actions: seq<Action>, t: Thread)
    ensures Exclusive(Run(start, actions), t)
  {
    if actions != [] {
      var earlier, a := actions[..|actions| - 1], actions[|actions| - 1];
      var u := if a.Expire? then t else a.t;
      LockIsExclusive(start, earlier, t);
      LockIsExclusive(start, earlier, u);
      ExclusiveStep(Run(start, earlier), a, t, u);
    }
  }

  predicate InWalk(pc: Pc) {
    pc.Walking? || pc.Walked?
  }

  /** Directory walks of two threads never overlap. */
  lemma WalksDoNotOverlap(start: int, actions: seq<Action>, t: Thread, u: Thread)
    requires InWalk(PcOf(Run(start, actions), t)) && InWalk(PcOf(Run(start, actions), u))
    ensures t == u
  {
    LockIsExclusive(start, actions, t);
    LockIsExclusive(start, actions, u);
  }

  // ---------- the rate limit and the table ----------

  /** The earliest reading that lets another walk start. */
  function Due(walks: seq<Walk>, start: int): int {
    if walks == [] then start else
      var last := walks[|walks| - 1];
      if last.Running? then last.started else last.ended + Interval(last.renew)
  }

  /** Every walk started after the one before it was over and its interval had passed. */
  predicate Spaced(walks: seq<Walk>, start: int) {
    walks == [] ||
    var earlier := walks[..|walks| - 1];
    Spaced(earlier, start) && !LastRunning(earlier) && walks[|walks| - 1].started >= Due(earlier, start)
  }

  /** The tables that the walks lead to: a failed walk leads to none. */
  function TablesOf(walks: seq<Walk>): seq<Table> {
    if walks == [] then [map[]] else
      var last := walks[|walks| - 1];
      var earlier := TablesOf(walks[..|walks| - 1]);
      if last.Ended? && last.renew.Some? then earlier + [last.renew.value] else earlier
  }

  function OwnerPc(s: State): Pc {
    if s.owner.Some? then PcOf(s, s.owner.value) else Idle
  }

  predicate LastRunning(walks: seq<Walk>) {
    walks != [] && walks[|walks| - 1].Running?
  }

  predicate LastEnded(walks: seq<Walk>, now: int, renew: Option<Table>) {
    walks != [] && walks[|walks| - 1].Ended? && walks[|walks| - 1].ended == now && walks[|walks| - 1].renew == renew
  }

  /** The lock holder has nothing to store. */
  predicate Quiet(pc: Pc) {
    !InWalk(pc) && !pc.Store? && !pc.Schedule?
  }

  /** The shared fields and the history agree, up to what the lock holder has yet to store. */
  predicate Agree(pc: Pc, walks: seq<Walk>, nextUpdate: int, tables: seq<Table>, start: int) {
    && Spaced(walks, start)
    && (InWalk(pc) <==> LastRunning(walks))
    && (pc.Store? || pc.Schedule? ==> LastEnded(walks, pc.now, pc.renew))
    && (Quiet(pc) ==> nextUpdate == Due(walks, start))
    && tables == TablesOf(if pc.Store? then walks[..|walks| - 1] else walks)
  }

  predicate History(s: State, start: int) {
    Agree(OwnerPc(s), s.walks, s.nextUpdate, s.tables, start)
  }

  lemma OutsideKeepsHistory(s: State, start: int, t: Thread, now: int, walk: Option<Table>)
    requires History(s, start) && Exclusive(s, t) && !Inside(PcOf(s, t))
    ensures History(Next(s, t, now, walk), start)
  {
    var s' := Next(s, t, now, walk);
    assert s'.walks == s.walks && s'.tables == s.tables;
    assert OwnerPc(s') == OwnerPc(s) || (Quiet(OwnerPc(s')) && Quiet(OwnerPc(s)));
  }

  lemma WalkStarts(walks: seq<Walk>, start: int, read: int)
    requires Spaced(walks, start) && !LastRunning(walks) && read >= Due(walks, start)
    ensures Spaced(walks + [Running(read)], start) && TablesOf(walks + [Running(read)]) == TablesOf(walks)
  {
    var next := walks + [Running(read)];
    assert next[..|next| - 1] == walks;
  }

  lemma WalkEnds(walks: seq<Walk>, start: int, now: int, renew: Option<Table>)
    requires Spaced(walks, start) && LastRunning(walks)
    ensures var next := EndLast(walks, now, renew);
            && Spaced(next, start) && LastEnded(next, now, renew)
            && TablesOf(next[..|next| - 1]) == TablesOf(walks)
  {
    var next, n := EndLast(walks, now, renew), |walks| - 1;
    assert next[..n] == walks[..n];
    assert TablesOf(walks) == TablesOf(walks[..n]);
  }

  lemma AgreeAtStart(
      pc: Pc, walks: seq<Walk>, nextUpdate: int, tables: seq<Table>, start: int, id: nat, since: nat, read: int)
    requires Agree(pc, walks, nextUpdate, tables, start) && Quiet(pc) && read >= nextUpdate
    ensures Agree(Walking(id, since), walks + [Running(read)], nextUpdate, tables, start)
  {
    WalkStarts(walks, start, read);
  }

  lemma AgreeAtEnd(pc: Pc, walks: seq<Walk>, nextUpdate: int, tables: seq<Table>, start: int, now: int)
    requires Agree(pc, walks, nextUpdate, tables, start) && pc.Walked?
    ensures Agree(Store(pc.id, pc.since, now, pc.renew), EndLast(walks, now, pc.renew), nextUpdate, tables, start)
  {
    WalkEnds(walks, start, now, pc.renew);
  }

  lemma AgreeAtStore(pc: Pc, walks: seq<Walk>, nextUpdate: int, tables: seq<Table>, start: int)
    requires Agree(pc, walks, nextUpdate, tables, start) && pc.Store?
    ensures Agree(Schedule(pc.id, pc.since, pc.now, pc.renew), walks, nextUpdate,
                  if pc.renew.Some? then tables + [pc.renew.value] else tables, start)
  {
  }

  lemma AgreeAtSchedule(pc: Pc, walks: seq<Walk>, nextUpdate: int, tables: seq<Table>, start: int)
    requires Agree(pc, walks, nextUpdate, tables, start) && pc.Schedule?
    ensures Agree(Final(pc.id, pc.since, pc.renew), walks, pc.now + Interval(pc.renew), tables, start)
  {
  }

  /** The other steps store nothing. */
  lemma AgreeElsewhere(pc: Pc, pc': Pc, walks: seq<Walk>, nextUpdate: int, tables: seq<Table>, start: int)
    requires Agree(pc, walks, nextUpdate, tables, start)
    requires (Quiet(pc) && Quiet(pc')) || (pc.Walking? && pc'.Walked?)
    ensures Agree(pc', walks, nextUpdate, tables, start)
  {
  }

  lemma OwnerMoves(s: State, t: Thread, now: int, walk: Option<Table>)
    requires s.owner == Some(t) && Inside(PcOf(s, t))
    ensures OwnerPc(Next(s, t, now, walk)) == if PcOf(s, t).Release? then Idle else Target(s, PcOf(s, t), now, walk)
  {
  }

  lemma InsideKeepsHistory(s: State, start: int, t: Thread, now: int, walk: Option<Table>)
    requires History(s, start) && s.owner == Some(t) && Inside(PcOf(s, t))
    ensures History(Next(s, t, now, walk), start)
  {
    var pc := PcOf(s, t);
    OwnerMoves(s, t, now, walk);
    if pc.CheckAgain? && pc.now >= s.nextUpdate {
      AgreeAtStart(pc, s.walks, s.nextUpdate, s.tables, start, pc.id, pc.since, pc.now);
    } else if pc.Walked? {
      AgreeAtEnd(pc, s.walks, s.nextUpdate, s.tables, start, now);
    } else if pc.Store? {
      AgreeAtStore(pc, s.walks, s.nextUpdate, s.tables, start);
    } else if pc.Schedule? {
      AgreeAtSchedule(pc, s.walks, s.nextUpdate, s.tables, start);
    } else {
      AgreeElsewhere(pc, OwnerPc(Next(s, t, now, walk)), s.walks, s.nextUpdate, s.tables, start);
    }
  }

  lemma {:induction false} RunKeepsHistory(start: int, actions: seq<Action>)
    ensures History(Run(start, actions), start)
  {
    if actions != [] {
      var earlier, a := actions[..|actions| - 1], actions[|actions| - 1];
      RunKeepsHistory(start, earlier);
      var s := Run(start, earlier);
      if !a.Expire? {
        LockIsExclusive(start, earlier, a.t);
      }
      if a.Go? && Inside(PcOf(s, a.t)) {
        InsideKeepsHistory(s, start, a.t, a.now, a.walk);
      } else if a.Go? {
        OutsideKeepsHistory(s, start, a.t, a.now, a.walk);
      }
    }
  }

  lemma {:induction false} SpacedAt(walks: seq<Walk>, start: int, i: nat)
    requires Spaced(walks, start) && i < |walks|
    ensures !LastRunning(walks[..i]) && walks[i].started >= Due(walks[..i], start)
  {
    var n := |walks| - 1;
    if i < n {
      SpacedAt(walks[..n], start, i);
      assert walks[..n][..i] == walks[..i];
    }
  }

  /**
   In every run, a walk starts only after the walk before it is over, at a clock reading at
   least 5 s past the reading at its end, or 1 s if it failed.
   */
  lemma WalksAreSpaced(start: int, actions: seq<Action>, i: nat)
    requires 0 < i < |Run(start, actions).walks|
    ensures var walks := Run(start, actions).walks;
            && walks[i - 1].Ended?
            && walks[i].started >= walks[i - 1].ended +
                 if walks[i - 1].renew.Some? then 5_000_000_000 else 1_000_000_000
  {
    RunKeepsHistory(start, actions);
    var walks := Run(start, actions).walks;
    SpacedAt(walks, start, i);
    assert walks[..i][|walks[..i]| - 1] == walks[i - 1];
  }

  predicate Stored(s: State, s': State) {
    && s.walks != [] && s.walks[|s.walks| - 1].Ended? && s.walks[|s.walks| - 1].renew.Some?
    && s'.tables == s.tables + [s.walks[|s.walks| - 1].renew.value]
  }

  lemma StepStores(s: State, start: int, a: Action)
    requires History(s, start) && (a.Go? ==> Exclusive(s, a.t)) && Step(s, a).tables != s.tables
    ensures Stored(s, Step(s, a))
  {
    assert a.Go? && PcOf(s, a.t).Store?;
    assert OwnerPc(s) == PcOf(s, a.t);
  }

  lemma RunSnoc(start: int, actions: seq<Action>, a: Action)
    ensures Run(start, actions + [a]) == Step(Run(start, actions), a)
  {
    assert (actions + [a])[..|actions|] == actions;
  }

  /** The table changes only when a walk that succeeded stores its result, and to that result. */
  lemma TableChangesOnlyBySuccess(start: int, actions: seq<Action>, a: Action)
    requires Run(start, actions + [a]).tables != Run(start, actions).tables
    ensures Stored(Run(start, actions), Run(start, actions + [a]))
  {
    RunSnoc(start, actions, a);
    RunKeepsHistory(start, actions);
    if a.Go? {
      LockIsExclusive(start, actions, a.t);
    }
    StepStores(Run(start, actions), start, a);
  }

  // ---------- answers ----------

  /** Some table from number `since` to number `until` maps the cgroup to the container. */
  ghost predicate Mapped(tables: seq<Table>, id: nat, cid: string, since: nat, until: nat) {
    exists k :: since <= k <= until && k < |tables| && id in tables[k] && tables[k][id] == cid
  }

  /** Some successful walk found no container for the cgroup. */
  ghost predicate Missed(tables: seq<Table>, id: nat) {
    exists k :: 0 < k < |tables| && id !in tables[k]
  }

  /** Some table from number `since` to number `until` does not have the cgroup. */
  ghost predicate Lacked(tables: seq<Table>, id: nat, since: nat, until: nat) {
    exists k :: since <= k <= until && k < |tables| && id !in tables[k]
  }

  /** Past its first look at the table, and not about to answer with a container. */
  predicate Looked(pc: Pc) {
    !pc.Idle? && !pc.Load? && !((pc.Release? || pc.Return?) && pc.answer.Container?)
  }

  /** What a call knows at each point. */
  ghost predicate Knows(s: State, pc: Pc) {
    && (!pc.Idle? ==> pc.since <= Latest(s))
    && (Looked(pc) ==> Lacked(s.tables, pc.id, pc.since, Latest(s)))
    && (pc.Release? || pc.Return? ==> pc.answer.Container? ==>
          Mapped(s.tables, pc.id, pc.answer.cid, pc.since, Latest(s)))
    && (pc.Schedule? || pc.Final? ==> pc.renew.Some? ==> Latest(s) > 0)
    && (pc.Remember? ==> Missed(s.tables, pc.id))
  }

  /** An answer agrees with a table that was current during the call. */
  ghost predicate WasCurrent(tables: seq<Table>, r: Reply) {
    && r.since <= r.until < |tables|
    && (if r.answer.Container? then Mapped(tables, r.id, r.answer.cid, r.since, r.until)
        else Lacked(tables, r.id, r.since, r.until))
  }

  ghost predicate Honest(s: State) {
    && s.tables != []
    && (forall t :: t in s.pcs ==> Knows(s, s.pcs[t]))
    && (forall id :: id in s.nonContainer ==> Missed(s.tables, id))
    && (forall r :: r in s.replies ==> WasCurrent(s.tables, r))
  }

  /** Tables are never forgotten, so what was known stays known. */
  lemma KnowsLater(s: State, s': State, pc: Pc)
    requires s.tables != [] && s.tables <= s'.tables && Knows(s, pc)
    ensures Knows(s', pc)
  {
  }

  lemma NextKnows(s: State, t: Thread, now: int, walk: Option<Table>)
    requires s.tables != [] && Knows(s, PcOf(s, t))
    ensures Knows(Next(s, t, now, walk), PcOf(Next(s, t, now, walk), t))
  {
    var s', pc := Next(s, t, now, walk), PcOf(s, t);
    assert Current(s) == s.tables[Latest(s)] && Current(s') == s'.tables[Latest(s')];
    if Looked(pc) {
      LackedLater(s.tables, s'.tables, pc.id, pc.since, Latest(s), Latest(s'));
    } else if pc.Load? && pc.id !in Current(s) {
      assert Lacked(s'.tables, pc.id, pc.since, Latest(s'));
    }
  }

  lemma LackedLater(tables: seq<Table>, more: seq<Table>, id: nat, since: nat, until: nat, later: nat)
    requires tables <= more && until <= later && Lacked(tables, id, since, until)
    ensures Lacked(more, id, since, later)
  {
    var k :| since <= k <= until && k < |tables| && id !in tables[k];
    assert more[k] == tables[k];
  }

  lemma MappedLater(tables: seq<Table>, more: seq<Table>, r: Reply)
    requires tables <= more && WasCurrent(tables, r)
    ensures WasCurrent(more, r)
  {
  }

  lemma StepIsHonest(s: State, a: Action)
    requires Honest(s)
    ensures Honest(Step(s, a))
  {
    var s' := Step(s, a);
    assert a.Go? ==> Knows(s, PcOf(s, a.t));
    assert s.tables <= s'.tables;
    forall u | u in s'.pcs ensures Knows(s', s'.pcs[u]) {
      if a.Expire? || u != a.t {
        KnowsLater(s, s', s.pcs[u]);
      } else if a.Go? {
        NextKnows(s, a.t, a.now, a.walk);
      }
    }
    forall id | id in s'.nonContainer ensures Missed(s'.tables, id) {
      assert Missed(s.tables, id);
      var k :| 0 < k < |s.tables| && id !in s.tables[k];
      assert s'.tables[k] == s.tables[k];
    }
    forall r | r in s'.replies ensures WasCurrent(s'.tables, r) {
      MappedLater(s.tables, s'.tables, r);
    }
  }

  lemma {:induction false} RunIsHonest(start: int, actions: seq<Action>)
    ensures Honest(Run(start, actions))
  {
    if actions != [] {
      RunIsHonest(start, actions[..|actions| - 1]);
      StepIsHonest(Run(start, actions[..|actions| - 1]), actions[|actions| - 1]);
    }
  }

  /** In every run, a container ID returned was in a table current during the call. */
  lemma AnswersWereCurrent(start: int, actions: seq<Action>, r: Reply)
    requires r in Run(start, actions).replies && r.answer.Container?
    ensures Mapped(Run(start, actions).tables, r.id, r.answer.cid, r.since, r.until)
  {
    RunIsHonest(start, actions);
    assert WasCurrent(Run(start, actions).tables, r);
  }

  /** In every run, when no container ID is returned, some table current during the call lacked the cgroup. */
  lemma UnknownWasLacked(start: int, actions: seq<Action>, r: Reply)
    requires r in Run(start, actions).replies && r.answer.NonContainer?
    ensures Lacked(Run(start, actions).tables, r.id, r.since, r.until)
  {
    RunIsHonest(start, actions);
    assert WasCurrent(Run(start, actions).tables, r);
  }

  /** In every run, a cgroup is cached as having no container only if a successful walk missed it. */
  lemma NegativesWereMissed(start: int, actions: seq<Action>, id: nat)
    requires id in Run(start, actions).nonContainer
    ensures Missed(Run(start, actions).tables, id)
  {
    RunIsHonest(start, actions);
  }

  // ---------- a call on its own ----------

  /** Entry `i + 1` of a list of states is what action `i` makes of entry `i`. */
  predicate Follows(past: seq<State>, actions: seq<Action>, i: nat) {
    i < |actions| && |past| == |actions| + 1 && past[i + 1] == Step(past[i], actions[i])
  }

  ghost predicate IsRun(past: seq<State>, actions: seq<Action>, start: int) {
    && |past| == |actions| + 1 && past[0] == Initial(start)
    && forall i :: 0 <= i < |actions| ==> Follows(past, actions, i)
  }

  lemma IsRunSnoc(past: seq<State>, actions: seq<Action>, start: int, a: Action)
    requires IsRun(past, actions, start)
    ensures IsRun(past + [Step(past[|actions|], a)], actions + [a], start)
  {
    var past', actions' := past + [Step(past[|actions|], a)], actions + [a];
    forall i | 0 <= i < |actions'| ensures Follows(past', actions', i) {
      if i < |actions| {
        assert Follows(past, actions, i);
      }
    }
  }

  /** Such a list ends in the state of the run. */
  lemma {:induction false} RunIsLast(past: seq<State>, actions: seq<Action>, start: int, n: nat)
    requires IsRun(past, actions, start) && n <= |actions|
    ensures past[n] == Run(start, actions[..n])
  {
    if n > 0 {
      RunIsLast(past, actions, start, n - 1);
      assert Follows(past, actions, n - 1);
      assert actions[..n][..n - 1] == actions[..n - 1];
    }
  }

  /** Points whose step changes no shared field. */
  predicate Private(pc: Pc) {
    !pc.Acquire? && !pc.Store? && !pc.Schedule? && !pc.Remember? && !pc.Release? && !pc.Return?
  }

  predicate SameFields(a: State, b: State) {
    && a.owner == b.owner && a.tables == b.tables && a.nextUpdate == b.nextUpdate
    && a.nonContainer == b.nonContainer && a.replies == b.replies
  }

  /** The resolver with one caller at a time; `past` and `actions` are the run of the machine it goes through. */
  class ContainerResolver {
    var cgroupTable: Table
    var nextUpdateTime: int
    var nonContainer: set<nat>
    ghost const start: int
    ghost var past: seq<State>
    ghost var actions: seq<Action>
    ghost var s: State

    ghost predicate Traced()
      reads this`past, this`actions, this`s
    {
      IsRun(past, actions, start) && s == past[|actions|] && s.tables != []
    }

    ghost predicate Valid()
      reads this
    {
      && Traced()
      && Current(s) == cgroupTable && s.nextUpdate == nextUpdateTime && s.nonContainer == nonContainer
    }

    lemma TracedIsRun()
      requires Traced()
      ensures s == Run(start, actions)
    {
      RunIsLast(past, actions, start, |actions|);
      assert actions[..|actions|] == actions;
    }

    constructor (now: int)
      ensures Valid() && actions == [] && cgroupTable == map[] && nextUpdateTime == now && nonContainer == {}
    {
      cgroupTable, nextUpdateTime, nonContainer := map[], now, {};
      start, actions, past := now, [], [Initial(now)];
      s := Initial(now);
    }

    /** The machine takes the next step of a thread. */
    ghost method Advance(t: Thread, pc: Pc, now: int, walk: Option<Table>)
      requires Traced() && PcOf(s, t) == pc
      modifies this`past, this`actions, this`s
      ensures Traced() && PcOf(s, t) == Target(old(s), pc, now, walk)
      ensures s.owner ==
              if pc.Acquire? && old(s).owner.None? then Some(t) else if pc.Release? then None else old(s).owner
      ensures s.tables == (if pc.Store? && pc.renew.Some? then old(s).tables + [pc.renew.value] else old(s).tables)
      ensures s.nextUpdate == (if pc.Schedule? then pc.now + Interval(pc.renew) else old(s).nextUpdate)
      ensures s.nonContainer == (if pc.Remember? then old(s).nonContainer + {pc.id} else old(s).nonContainer)
      ensures s.replies == (if pc.Return? then old(s).replies + [Reply(pc.id, pc.answer, pc.since, Latest(old(s)))]
                            else old(s).replies)
    {
      var a := Go(t, now, walk);
      IsRunSnoc(past, actions, start, a);
      s := Step(s, a);
      past, actions := past + [s], actions + [a];
    }

    /** The same for a step that changes no shared field. */
    ghost method Move(t: Thread, pc: Pc, now: int, walk: Option<Table>)
      requires Traced() && PcOf(s, t) == pc && Private(pc)
      modifies this`past, this`actions, this`s
      ensures Traced() && PcOf(s, t) == Target(old(s), pc, now, walk) && SameFields(s, old(s))
    {
      Advance(t, pc, now, walk);
    }

    ghost method Start(t: Thread, id: nat)
      requires Traced() && PcOf(s, t).Idle?
      modifies this`past, this`actions, this`s
      ensures Traced() && PcOf(s, t) == Load(id, Latest(old(s))) && s == old(s).(pcs := s.pcs)
    {
      IsRunSnoc(past, actions, start, Begin(t, id));
      s := Step(s, Begin(t, id));
      past, actions := past + [s], actions + [Begin(t, id)];
    }

    /** Look in the table, then in the negative cache. */
    method LoadCached(ghost t: Thread, id: nat) returns (answer: Option<Answer>)
      requires Valid() && PcOf(s, t).Load? && PcOf(s, t).id == id
      modifies this`past, this`actions, this`s
      ensures Valid() && s.owner == old(s).owner && s.replies == old(s).replies && s.tables == old(s).tables
      ensures answer == if id in cgroupTable then Some(Container(cgroupTable[id]))
                        else if id in nonContainer then Some(NonContainer) else None
      ensures var since := old(PcOf(s, t)).since;
              PcOf(s, t) == if answer.Some? then Return(id, since, answer.value) else Clock(id, since)
    {
      ghost var since := PcOf(s, t).since;
      Move(t, Load(id, since), 0, None);
      if id in cgroupTable {
        return Some(Container(cgroupTable[id]));
      }
      Move(t, Negative(id, since), 0, None);
      answer := if id in nonContainer then Some(NonContainer) else None;
    }

    /** The walk, and the clock reading after it. */
    ghost method WalkAndRead(t: Thread, id: nat, after: int, walk: Option<Table>)
      requires Valid() && PcOf(s, t).Walking? && PcOf(s, t).id == id
      modifies this`past, this`actions, this`s
      ensures Valid() && s.owner == old(s).owner && s.replies == old(s).replies
      ensures PcOf(s, t) == Store(id, old(PcOf(s, t)).since, after, walk)
    {
      var since := PcOf(s, t).since;
      Move(t, Walking(id, since), 0, walk);
      Move(t, Walked(id, since, walk), after, None);
    }

    /** A walk that succeeded gives the table. */
    method StoreTable(ghost t: Thread, ghost id: nat, ghost since: nat, ghost after: int, walk: Option<Table>)
      requires Valid() && PcOf(s, t) == Store(id, since, after, walk)
      modifies this`cgroupTable, this`past, this`actions, this`s
      ensures Valid() && s.owner == old(s).owner && s.replies == old(s).replies
      ensures PcOf(s, t) == Schedule(id, since, after, walk)
      ensures cgroupTable == if walk.Some? then walk.value else old(cgroupTable)
    {
      Advance(t, Store(id, since, after, walk), 0, None);
      if walk.Some? {
        cgroupTable := walk.value;
      }
    }

    /** The walk, and the stores that follow it, with the lock held. */
    method Update(ghost t: Thread, id: nat, after: int, walk: Option<Table>)
      requires Valid() && PcOf(s, t).Walking? && PcOf(s, t).id == id
      modifies this
      ensures Valid() && s.owner == old(s).owner && s.replies == old(s).replies
      ensures PcOf(s, t) == Final(id, old(PcOf(s, t)).since, walk)
      ensures cgroupTable == (if walk.Some? then walk.value else old(cgroupTable))
      ensures nextUpdateTime == after + Interval(walk) && nonContainer == old(nonContainer)
    {
      ghost var since := PcOf(s, t).since;
      WalkAndRead(t, id, after, walk);
      StoreTable(t, id, since, after, walk);
      Advance(t, Schedule(id, since, after, walk), 0, None);
      nextUpdateTime := after + Interval(walk);
    }

    /** The answer after a walk, and the negative entry when the walk succeeded without finding the cgroup. */
    method Finish(ghost t: Thread, id: nat, walk: Option<Table>) returns (answer: Answer)
      requires Valid() && PcOf(s, t).Final? && PcOf(s, t).id == id && PcOf(s, t).renew == walk
      modifies this`nonContainer, this`past, this`actions, this`s
      ensures Valid() && s.owner == old(s.owner) && s.replies == old(s.replies)
      ensures PcOf(s, t) == Release(id, old(PcOf(s, t)).since, answer)
      ensures answer == (if id in cgroupTable then Container(cgroupTable[id]) else NonContainer)
      ensures nonContainer == if walk.Some? && id !in cgroupTable then old(nonContainer) + {id} else old(nonContainer)
    {
      ghost var since := PcOf(s, t).since;
      Move(t, Final(id, since, walk), 0, None);
      if id in cgroupTable {
        return Container(cgroupTable[id]);
      }
      answer := NonContainer;
      if walk.Some? {
        Advance(t, Remember(id, since), 0, None);
        nonContainer := nonContainer + {id};
      }
    }

    /** Take the lock and look at the table again. */
    method LockAndLook(ghost t: Thread, id: nat) returns (answer: Option<Answer>)
      requires Valid() && s.owner.None? && PcOf(s, t).Acquire? && PcOf(s, t).id == id
      modifies this`past, this`actions, this`s
      ensures Valid() && s.owner == Some(t) && s.replies == old(s.replies)
      ensures answer == if id in cgroupTable then Some(Container(cgroupTable[id])) else None
      ensures var since := old(PcOf(s, t)).since;
              PcOf(s, t) == if answer.Some? then Release(id, since, answer.value) else ClockAgain(id, since)
    {
      ghost var since := PcOf(s, t).since;
      Advance(t, Acquire(id, since), 0, None);
      Move(t, Recheck(id, since), 0, None);
      answer := if id in cgroupTable then Some(Container(cgroupTable[id])) else None;
    }

    /** The second look, with the lock held: an answer, or leave to walk. */
    method LookAgain(ghost t: Thread, id: nat, second: int) returns (answer: Option<Answer>)
      requires Valid() && s.owner.None? && PcOf(s, t).Acquire? && PcOf(s, t).id == id
      modifies this`past, this`actions, this`s
      ensures Valid() && s.owner == Some(t) && s.replies == old(s.replies)
      ensures answer == if id in cgroupTable then Some(Container(cgroupTable[id]))
                        else if second < nextUpdateTime then Some(NonContainer) else None
      ensures var since := old(PcOf(s, t)).since;
              PcOf(s, t) == if answer.Some? then Release(id, since, answer.value) else Walking(id, since)
    {
      ghost var since := PcOf(s, t).since;
      answer := LockAndLook(t, id);
      if answer.None? {
        Move(t, ClockAgain(id, since), second, None);
        Move(t, CheckAgain(id, since, second), 0, None);
        answer := if second < nextUpdateTime then Some(NonContainer) else None;
      }
    }

    /** A walk and what follows it. */
    method Refresh(ghost t: Thread, id: nat, after: int, walk: Option<Table>) returns (answer: Answer)
      requires Valid() && PcOf(s, t).Walking? && PcOf(s, t).id == id
      modifies this
      ensures Valid() && s.owner == old(s).owner && s.replies == old(s).replies
      ensures PcOf(s, t) == Release(id, old(PcOf(s, t)).since, answer)
      ensures cgroupTable == (if walk.Some? then walk.value else old(cgroupTable))
      ensures nextUpdateTime == after + Interval(walk)
      ensures answer == (if id in cgroupTable then Container(cgroupTable[id]) else NonContainer)
      ensures nonContainer == if walk.Some? && id !in cgroupTable then old(nonContainer) + {id} else old(nonContainer)
    {
      Update(t, id, after, walk);
      answer := Finish(t, id, walk);
    }

    /** From taking the lock to giving it back. */
    method Locked(ghost t: Thread, id: nat, second: int, after: int, walk: Option<Table>) returns (answer: Answer)
      requires Valid() && s.owner.None? && PcOf(s, t).Acquire? && PcOf(s, t).id == id
      modifies this
      ensures Valid() && s.owner.None? && s.replies == old(s.replies)
      ensures PcOf(s, t) == Return(id, old(PcOf(s, t)).since, answer)
      ensures answer == (if id in cgroupTable then Container(cgroupTable[id]) else NonContainer)
      ensures var walks := id !in old(cgroupTable) && old(nextUpdateTime) <= second;
              && cgroupTable == (if walks && walk.Some? then walk.value else old(cgroupTable))
              && nextUpdateTime == (if walks then after + Interval(walk) else old(nextUpdateTime))
              && nonContainer ==
                   (if walks && walk.Some? && id !in cgroupTable then old(nonContainer) + {id} else old(nonContainer))
    {
      ghost var since := PcOf(s, t).since;
      var found := LookAgain(t, id, second);
      if found.Some? {
        answer := found.value;
      } else {
        answer := Refresh(t, id, after, walk);
      }
      Advance(t, Release(id, since, answer), 0, None);
    }

    /** The first look, without the lock: an answer, or leave to take the lock. */
    method Look(ghost t: Thread, id: nat, first: int) returns (answer: Option<Answer>)
      requires Valid() && PcOf(s, t).Load? && PcOf(s, t).id == id
      modifies this`past, this`actions, this`s
      ensures Valid() && s.owner == old(s).owner && s.replies == old(s).replies
      ensures answer == if id in cgroupTable then Some(Container(cgroupTable[id]))
                        else if id in nonContainer || first < nextUpdateTime then Some(NonContainer) else None
      ensures var since := old(PcOf(s, t)).since;
              PcOf(s, t) == if answer.Some? then Return(id, since, answer.value) else Acquire(id, since)
    {
      ghost var since := PcOf(s, t).since;
      answer := LoadCached(t, id);
      if answer.None? {
        Move(t, Clock(id, since), first, None);
        Move(t, Check(id, since, first), 0, None);
        answer := if first < nextUpdateTime then Some(NonContainer) else None;
      }
    }

    /** What a call that comes to `answer` does to the fields. */
    twostate predicate Did(id: nat, first: int, second: int, after: int, walk: Option<Table>, answer: Answer)
      reads this
    {
      var walks := id !in old(cgroupTable) && id !in old(nonContainer)
                   && old(nextUpdateTime) <= first && old(nextUpdateTime) <= second;
      && answer == (if id in cgroupTable then Container(cgroupTable[id]) else NonContainer)
      && cgroupTable == (if walks && walk.Some? then walk.value else old(cgroupTable))
      && nextUpdateTime == (if walks then after + Interval(walk) else old(nextUpdateTime))
      && nonContainer ==
           (if walks && walk.Some? && id !in cgroupTable then old(nonContainer) + {id} else old(nonContainer))
    }

    method Call(ghost t: Thread, id: nat, first: int, second: int, after: int, walk: Option<Table>)
      returns (answer: Answer)
      requires Valid() && s.owner.None? && PcOf(s, t).Idle?
      modifies this
      ensures Valid() && s.owner.None? && PcOf(s, t).Idle?
      ensures s.replies == old(s.replies) + [Reply(id, answer, old(Latest(s)), Latest(s))]
      ensures Did(id, first, second, after, walk, answer)
    {
      ghost var since := Latest(s);
      Start(t, id);
      var found := Look(t, id, first);
      if found.Some? {
        answer := found.value;
      } else {
        answer := Locked(t, id, second, after, walk);
      }
      Advance(t, Return(id, since, answer), 0, None);
    }

    /** The whole call is a run of the machine that ends in the reply, and this is what it does. */
    method Resolve(ghost t: Thread, id: nat, first: int, second: int, after: int, walk: Option<Table>)
      returns (answer: Answer)
      requires Valid() && s.owner.None? && PcOf(s, t).Idle?
      modifies this
      ensures Valid() && s.owner.None? && PcOf(s, t).Idle? && s == Run(start, actions)
      ensures s.replies == old(s.replies) + [Reply(id, answer, old(Latest(s)), Latest(s))]
      ensures Did(id, first, second, after, walk, answer)
    {
      answer := Call(t, id, first, second, after, walk);
      TracedIsRun();
    }
  }
}
