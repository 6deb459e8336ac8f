/**
 The bounded event list of the terminal UI (tui/model.go): records kept in time order,
 the oldest dropped beyond 4096, with a selected row and a scroll position that follow
 the records, and a cached table of session pairs.
 */
module EventList {
  import opened Common
  import opened Pairs

  const MAX_EVENTS_PER_TAB := 4096
  const LIST_SCROLL_OFF := 3
  const ALL_TAB := "all"

  // ---------- inserting in time order ----------

  ghost predicate TimeSorted(records: seq<Record>) {
    forall i, j :: 0 <= i < j < |records| ==> records[i].timestamp <= records[j].timestamp
  }

  /** The first position whose record is later than `t`. */
  function InsertAt(records: seq<Record>, t: int): (p: nat)
    ensures p <= |records|
    ensures forall i :: 0 <= i < p ==> records[i].timestamp <= t
    ensures p < |records| ==> records[p].timestamp > t
  {
    if records == [] || records[0].timestamp > t then 0 else 1 + InsertAt(records[1..], t)
  }

  /** Binary search, as the library does it; on a list in time order it finds that position. */
  method Search(records: seq<Record>, t: int) returns (p: nat)
    requires TimeSorted(records)
    ensures p == InsertAt(records, t)
  {
    var lo, hi := 0, |records|;
    while lo < hi
      invariant 0 <= lo <= hi <= |records|
      invariant forall i :: 0 <= i < lo ==> records[i].timestamp <= t
      invariant forall i :: hi <= i < |records| ==> records[i].timestamp > t
    {
      var mid := (lo + hi) / 2;
      if !(records[mid].timestamp > t) {
        lo := mid + 1;
      } else {
        hi := mid;
      }
    }
    p := lo;
    InsertAtIs(records, t, p);
  }

  lemma {:induction false} InsertAtIs(records: seq<Record>, t: int, p: nat)
    requires p <= |records| && (forall i :: 0 <= i < p ==> records[i].timestamp <= t)
    requires p < |records| ==> records[p].timestamp > t
    ensures InsertAt(records, t) == p
  {
    if p > 0 {
      assert forall i :: 0 <= i < p - 1 ==> records[1..][i] == records[i + 1];
      InsertAtIs(records[1..], t, p - 1);
    }
  }

  function Insert(records: seq<Record>, r: Record): seq<Record> {
    var p := InsertAt(records, r.timestamp);
    records[..p] + [r] + records[p..]
  }

  function Latest(records: seq<Record>): seq<Record> {
    if |records| > MAX_EVENTS_PER_TAB then records[|records| - MAX_EVENTS_PER_TAB..] else records
  }

  lemma InsertSortedByTime(records: seq<Record>, r: Record)
    requires TimeSorted(records)
    ensures TimeSorted(Insert(records, r))
  {
    var p, all := InsertAt(records, r.timestamp), Insert(records, r);
    assert forall i :: p <= i < |records| ==> records[i].timestamp >= records[p].timestamp;
    forall i, j | 0 <= i < j < |all| ensures all[i].timestamp <= all[j].timestamp {
      assert all[i] == if i < p then records[i] else if i == p then r else records[i - 1];
      assert all[j] == if j < p then records[j] else if j == p then r else records[j - 1];
    }
  }

  /** Where a record goes in the kept part of a list. */
  lemma InsertAtSuffix(records: seq<Record>, k: nat, t: int)
    requires TimeSorted(records) && k <= |records|
    ensures InsertAt(records[k..], t) == Max(InsertAt(records, t) - k, 0)
  {
    var p, q := InsertAt(records, t), Max(InsertAt(records, t) - k, 0);
    var kept := records[k..];
    forall i | 0 <= i < q ensures kept[i].timestamp <= t {
      assert kept[i] == records[k + i];
    }
    if q < |kept| {
      assert kept[q] == records[k + q] && records[p].timestamp <= records[k + q].timestamp;
    }
    InsertAtIs(kept, t, q);
  }

  /** Inserting into the kept part of a list ... */
  lemma InsertHigh(records: seq<Record>, r: Record, k: nat, p: nat)
    requires k <= p <= |records|
    ensures (records[..p] + [r] + records[p..])[k + 1..] == (records[k..][..p - k] + [r] + records[k..][p - k..])[1..]
  {
    var some := records[k..][..p - k] + [r] + records[k..][p - k..];
    assert records[..p] + [r] + records[p..] == records[..k] + some;
  }

  /** ... or into the dropped part. */
  lemma InsertLow(records: seq<Record>, r: Record, k: nat, p: nat)
    requires p < k <= |records|
    ensures (records[..p] + [r] + records[p..])[k + 1..] == records[k..]
    ensures (records[k..][..0] + [r] + records[k..][0..])[1..] == records[k..]
  {
    var all := records[..p] + [r] + records[p..];
    assert all[k + 1..] == records[p..][k - p..];
  }

  lemma LatestIs(records: seq<Record>, k: nat)
    requires 0 < k <= |records| && |records| == k + MAX_EVENTS_PER_TAB
    ensures Latest(records) == records[k..]
  {
  }

  lemma SameTail(records: seq<Record>, r: Record, k: nat, p: nat)
    requires p <= |records| && k <= |records|
    ensures var q := Max(p - k, 0);
            (records[..p] + [r] + records[p..])[k + 1..] == (records[k..][..q] + [r] + records[k..][q..])[1..]
  {
    if p >= k {
      InsertHigh(records, r, k, p);
    } else {
      InsertLow(records, r, k, p);
    }
  }

  lemma LatestOfPlaced(records: seq<Record>, r: Record, k: nat, p: nat, all: seq<Record>, some: seq<Record>)
    requires k > 0 && |records| == k + MAX_EVENTS_PER_TAB && p <= |records|
    requires all == records[..p] + [r] + records[p..]
    requires var q := Max(p - k, 0); some == records[k..][..q] + [r] + records[k..][q..]
    ensures Latest(some) == Latest(all)
  {
    LatestIs(all, k + 1);
    LatestIs(some, 1);
    SameTail(records, r, k, p);
  }

  /** Dropping the oldest and then inserting keeps what inserting and then dropping would keep. */
  lemma LatestOfInsert(records: seq<Record>, r: Record)
    requires TimeSorted(records)
    ensures Latest(Insert(Latest(records), r)) == Latest(Insert(records, r))
  {
    if |records| > MAX_EVENTS_PER_TAB {
      var k := |records| - MAX_EVENTS_PER_TAB;
      LatestIs(records, k);
      LatestOfKept(records, r, k);
    }
  }

  lemma LatestOfKept(records: seq<Record>, r: Record, k: nat)
    requires TimeSorted(records) && k > 0 && |records| == k + MAX_EVENTS_PER_TAB
    ensures Latest(Insert(records[k..], r)) == Latest(Insert(records, r))
  {
    InsertAtSuffix(records, k, r.timestamp);
    LatestOfPlaced(records, r, k, InsertAt(records, r.timestamp), Insert(records, r), Insert(records[k..], r));
  }

  // ---------- the reference: a stable sort of everything ever appended ----------

  /** Arrival `i` comes before arrival `j`: by time, and by arrival among equals. */
  predicate Precedes(h: seq<Record>, i: nat, j: nat)
    requires i < |h| && j < |h|
  {
    h[i].timestamp < h[j].timestamp || (h[i].timestamp == h[j].timestamp && i < j)
  }

  /** `order` lists every arrival once, in that order. */
  ghost predicate StableOrder(h: seq<Record>, order: seq<nat>) {
    && |order| == |h|
    && (forall a :: 0 <= a < |order| ==> order[a] < |h|)
    && (forall i :: 0 <= i < |h| ==> i in order)
    && (forall a, b :: 0 <= a < b < |order| ==> Precedes(h, order[a], order[b]))
  }

  /** There is only one such order. */
  lemma {:induction false} StableOrderIsUnique(h: seq<Record>, o1: seq<nat>, o2: seq<nat>, k: nat)
    requires StableOrder(h, o1) && StableOrder(h, o2) && k < |h|
    ensures o1[k] == o2[k]
    decreases k
  {
    forall j | 0 <= j < k ensures o1[j] == o2[j] {
      StableOrderIsUnique(h, o1, o2, j);
    }
    assert o1[k] in o2 && o2[k] in o1;
    var b :| 0 <= b < |o2| && o2[b] == o1[k];
    var c :| 0 <= c < |o1| && o1[c] == o2[k];
  }

  /** Everything appended, in time order, as repeated insertion leaves it. */
  function Everything(h: seq<Record>): seq<Record> {
    if h == [] then [] else Insert(Everything(h[..|h| - 1]), h[|h| - 1])
  }

  /** The arrivals behind `Everything`. */
  function Ranks(h: seq<Record>): seq<nat>
  {
    if h == [] then [] else
      var front := h[..|h| - 1];
      var p := InsertAt(Everything(front), h[|h| - 1].timestamp);
      if p <= |Ranks(front)| then Ranks(front)[..p] + [|h| - 1] + Ranks(front)[p..] else []
  }

  lemma {:induction false} EverythingIsSorted(h: seq<Record>)
    ensures TimeSorted(Everything(h)) && |Everything(h)| == |h|
  {
    if h != [] {
      EverythingIsSorted(h[..|h| - 1]);
      InsertSortedByTime(Everything(h[..|h| - 1]), h[|h| - 1]);
    }
  }

  lemma {:induction false} RanksPointAt(h: seq<Record>)
    ensures |Ranks(h)| == |Everything(h)| == |h|
    ensures forall k :: 0 <= k < |h| ==> Ranks(h)[k] < |h| && Everything(h)[k] == h[Ranks(h)[k]]
  {
    EverythingIsSorted(h);
    if h != [] {
      var n := |h| - 1;
      var front, r := h[..n], h[n];
      EverythingIsSorted(front);
      RanksPointAt(front);
      var prior, ranks := Everything(front), Ranks(front);
      var p := InsertAt(prior, r.timestamp);
      assert forall k :: 0 <= k < n ==> prior[k] == h[ranks[k]];
      PointStep(h, prior, ranks, p);
    }
  }

  lemma PointStep(h: seq<Record>, prior: seq<Record>, ranks: seq<nat>, p: nat)
    requires h != [] && |ranks| == |prior| == |h| - 1 && p <= |ranks|
    requires forall k :: 0 <= k < |ranks| ==> ranks[k] < |h| && prior[k] == h[ranks[k]]
    ensures var n := |h| - 1;
            var order, all := ranks[..p] + [n] + ranks[p..], prior[..p] + [h[n]] + prior[p..];
            |order| == |all| == |h| && forall k :: 0 <= k < |h| ==> order[k] < |h| && all[k] == h[order[k]]
  {
  }

  lemma {:induction false} RanksAreStable(h: seq<Record>)
    ensures StableOrder(h, Ranks(h))
  {
    if h != [] {
      var n := |h| - 1;
      RanksAreStable(h[..n]);
      RanksPointAt(h[..n]);
      var p := NewestPlace(h);
      RanksGrow(h, Ranks(h[..n]), p);
    }
  }

  /** The newest arrival is put behind those no later than it, and before the others. */
  lemma NewestPlace(h: seq<Record>) returns (p: nat)
    requires h != []
    requires var ranks := Ranks(h[..|h| - 1]); |ranks| == |h| - 1 && forall a :: 0 <= a < |ranks| ==> ranks[a] < |h| - 1
    ensures var ranks, n := Ranks(h[..|h| - 1]), |h| - 1;
            && p <= n && Ranks(h) == ranks[..p] + [n] + ranks[p..]
            && (forall a :: 0 <= a < p ==> h[ranks[a]].timestamp <= h[n].timestamp)
            && (forall a :: p <= a < n ==> h[ranks[a]].timestamp > h[n].timestamp)
  {
    var n := |h| - 1;
    var front := h[..n];
    RanksPointAt(front);
    EverythingIsSorted(front);
    var prior, ranks := Everything(front), Ranks(front);
    p := InsertAt(prior, h[n].timestamp);
    assert forall a :: 0 <= a < n ==> prior[a] == front[ranks[a]] == h[ranks[a]];
    PlaceAmong(h, prior, ranks, p);
  }

  lemma PlaceAmong(h: seq<Record>, prior: seq<Record>, ranks: seq<nat>, p: nat)
    requires h != [] && |prior| == |ranks| == |h| - 1 && TimeSorted(prior)
    requires forall a :: 0 <= a < |ranks| ==> ranks[a] < |h| - 1 && prior[a] == h[ranks[a]]
    requires p == InsertAt(prior, h[|h| - 1].timestamp)
    ensures forall a :: 0 <= a < p ==> h[ranks[a]].timestamp <= h[|h| - 1].timestamp
    ensures forall a :: p <= a < |ranks| ==> h[ranks[a]].timestamp > h[|h| - 1].timestamp
  {
    forall a | p <= a < |ranks| ensures prior[a].timestamp > h[|h| - 1].timestamp {
      assert prior[a].timestamp >= prior[p].timestamp;
    }
  }

  /** The newest arrival takes its place among the others. */
  lemma RanksGrow(h: seq<Record>, ranks: seq<nat>, p: nat)
    requires h != [] && StableOrder(h[..|h| - 1], ranks) && p <= |ranks|
    requires forall a :: 0 <= a < p ==> h[ranks[a]].timestamp <= h[|h| - 1].timestamp
    requires forall a :: p <= a < |ranks| ==> h[ranks[a]].timestamp > h[|h| - 1].timestamp
    ensures StableOrder(h, ranks[..p] + [|h| - 1] + ranks[p..])
  {
    var n := |h| - 1;
    var order := ranks[..p] + [n] + ranks[p..];
    forall i | 0 <= i < |h| ensures i in order {
      PutIn(ranks, p, n, i);
    }
    forall a | 0 <= a < |order| ensures order[a] < |h| {
      assert order[a] == if a < p then ranks[a] else if a == p then n else ranks[a - 1];
    }
    forall a, b | 0 <= a < b < |order| ensures Precedes(h, order[a], order[b]) {
      NewestPrecedes(h, ranks, p, a, b);
    }
  }

  lemma PutIn(ranks: seq<nat>, p: nat, n: nat, i: nat)
    requires p <= |ranks| && (i == n || i in ranks)
    ensures i in ranks[..p] + [n] + ranks[p..]
  {
    var order := ranks[..p] + [n] + ranks[p..];
    if i == n {
      assert order[p] == n;
    } else {
      var a :| 0 <= a < |ranks| && ranks[a] == i;
      assert order[if a < p then a else a + 1] == i;
    }
  }

  lemma NewestPrecedes(h: seq<Record>, ranks: seq<nat>, p: nat, a: nat, b: nat)
    requires h != [] && StableOrder(h[..|h| - 1], ranks) && p <= |ranks| && a < b <= |ranks|
    requires forall a :: 0 <= a < p ==> h[ranks[a]].timestamp <= h[|h| - 1].timestamp
    requires forall a :: p <= a < |ranks| ==> h[ranks[a]].timestamp > h[|h| - 1].timestamp
    ensures var order := ranks[..p] + [|h| - 1] + ranks[p..];
            order[a] < |h| && order[b] < |h| && Precedes(h, order[a], order[b])
  {
    if a != p && b != p {
      var a', b' := if a < p then a else a - 1, if b < p then b else b - 1;
      assert Precedes(h[..|h| - 1], ranks[a'], ranks[b']);
    }
  }

  // ---------- one tab ----------

  datatype Tab = Tab(records: seq<Record>, selected: int, listStart: int)

  /** The selected row and the scroll position are rows of the list. */
  predicate InRange(t: Tab) {
    && |t.records| <= MAX_EVENTS_PER_TAB
    && 0 <= t.selected <= Max(0, |t.records| - 1)
    && 0 <= t.listStart <= Max(0, |t.records| - 1)
  }

  /** Where a row number goes when a record is put in at `p` and `dropped` rows leave at the top. */
  function Follow(row: int, p: int, dropped: int): int {
    (if p <= row then row + 1 else row) - dropped
  }

  /** A row number in a list that now has `count` rows; it does not move when its first row comes in. */
  function RowAfter(row: int, p: int, dropped: int, count: int): int {
    if count + dropped == 1 then Max(0, Min(row - dropped, 0)) else Max(0, Min(Follow(row, p, dropped), count - 1))
  }

  function AppendTo(t: Tab, r: Record): Tab {
    var all := Insert(t.records, r);
    var kept := Latest(all);
    var p, dropped := InsertAt(t.records, r.timestamp), |all| - |kept|;
    Tab(kept, RowAfter(t.selected, p, dropped, |kept|), RowAfter(t.listStart, p, dropped, |kept|))
  }

  function MoveBy(t: Tab, delta: int): Tab {
    if t.records == [] then t else t.(selected := Min(Max(0, t.selected + delta), |t.records| - 1))
  }

  datatype TabOp = Append(r: Record) | Move(delta: int) | Bottom | Scroll(height: int)

  function ApplyOp(t: Tab, op: TabOp): Tab {
    match op
    case Append(r) => AppendTo(t, r)
    case Move(delta) => MoveBy(t, delta)
    case Bottom => if t.records == [] then t else t.(selected := |t.records| - 1)
    case Scroll(height) => t.(listStart := WindowStart(t.listStart, |t.records|, height, t.selected))
  }

  function TabAfter(ops: seq<TabOp>): Tab {
    if ops == [] then Tab([], 0, 0) else ApplyOp(TabAfter(ops[..|ops| - 1]), ops[|ops| - 1])
  }

  function Appended(ops: seq<TabOp>): seq<Record> {
    if ops == [] then [] else
      Appended(ops[..|ops| - 1]) + if ops[|ops| - 1].Append? then [ops[|ops| - 1].r] else []
  }

  /** Where the window starts: near the old start, with the selection in view. */
  function WindowStart(listStart: int, total: int, height: int, selected: int): int {
    if total <= 0 || height <= 0 then 0 else
      var maxStart := Max(0, total - height);
      var start := Max(0, Min(listStart, maxStart));
      var off := Min(LIST_SCROLL_OFF, Max(0, height - 1));
      var start1 := if selected < start + off then Max(0, selected - off) else start;
      if selected > start1 + height - 1 - off then Min(maxStart, selected - (height - 1 - off)) else start1
  }

  /**
   The window lies in the list and shows the selection; with at least seven rows it keeps
   three rows on either side of it, except at the ends of the list.
   */
  lemma WindowShowsSelection(listStart: int, total: int, height: int, selected: int)
    requires height > 0 && 0 <= selected < total
    ensures var start := WindowStart(listStart, total, height, selected);
            && 0 <= start <= Max(0, total - height)
            && start <= selected < start + height
            && (height >= 7 ==> (start == 0 || selected - start >= LIST_SCROLL_OFF))
            && (height >= 7 ==> (start == Max(0, total - height) || start + height - 1 - selected >= LIST_SCROLL_OFF))
  {
  }

  /** A window already good is left alone. */
  lemma WindowIsStable(listStart: int, total: int, height: int, selected: int)
    requires height >= 7 && 0 <= selected < total && 0 <= listStart <= Max(0, total - height)
    requires listStart + LIST_SCROLL_OFF <= selected <= listStart + height - 1 - LIST_SCROLL_OFF
    ensures WindowStart(listStart, total, height, selected) == listStart
  {
  }

  lemma RowInRange(row: int, p: int, dropped: int, count: int)
    requires count > 0
    ensures 0 <= RowAfter(row, p, dropped, count) <= count - 1
  {
  }

  lemma AppendStaysInRange(t: Tab, r: Record)
    ensures InRange(AppendTo(t, r))
  {
    var all := Insert(t.records, r);
    var p, count := InsertAt(t.records, r.timestamp), |Latest(all)|;
    RowInRange(t.selected, p, |all| - count, count);
    RowInRange(t.listStart, p, |all| - count, count);
  }

  lemma ScrollStaysInRange(t: Tab, height: int)
    requires InRange(t)
    ensures InRange(t.(listStart := WindowStart(t.listStart, |t.records|, height, t.selected)))
  {
    if t.records != [] && height > 0 {
      WindowShowsSelection(t.listStart, |t.records|, height, t.selected);
    }
  }

  lemma OpStaysInRange(t: Tab, op: TabOp)
    requires InRange(t)
    ensures InRange(ApplyOp(t, op))
  {
    match op
    case Append(r) => AppendStaysInRange(t, r);
    case Scroll(height) => ScrollStaysInRange(t, height);
    case Move(_) =>
    case Bottom =>
  }

  /** Any run of operations keeps the rows in range ... */
  lemma {:induction false} RunsStayInRange(ops: seq<TabOp>)
    ensures InRange(TabAfter(ops))
  {
    if ops != [] {
      RunsStayInRange(ops[..|ops| - 1]);
      OpStaysInRange(TabAfter(ops[..|ops| - 1]), ops[|ops| - 1]);
    }
  }

  /** ... and holds the latest of everything appended, in stable time order. */
  lemma {:induction false} RunsKeepLatest(ops: seq<TabOp>)
    ensures TabAfter(ops).records == Latest(Everything(Appended(ops)))
  {
    if ops != [] {
      var front, op := ops[..|ops| - 1], ops[|ops| - 1];
      RunsKeepLatest(front);
      var h := Appended(front);
      if op.Append? {
        assert Appended(ops)[..|h|] == h;
        EverythingIsSorted(h);
        LatestOfInsert(Everything(h), op.r);
      } else {
        assert Appended(ops) == h;
      }
    }
  }

  /** The refinement in full: for the one stable order of the arrivals, the tab is its last 4096. */
  lemma TabIsStableSort(ops: seq<TabOp>, order: seq<nat>, k: nat)
    requires StableOrder(Appended(ops), order) && k < |TabAfter(ops).records|
    ensures var h, records := Appended(ops), TabAfter(ops).records;
            |records| == Min(|h|, MAX_EVENTS_PER_TAB) && records[k] == h[order[|h| - |records| + k]]
  {
    var h, records := Appended(ops), TabAfter(ops).records;
    RunsKeepLatest(ops);
    EverythingIsSorted(h);
    LatestAt(Everything(h), k);
    RankIsOrder(h, order, |h| - |records| + k);
  }

  lemma LatestAt(records: seq<Record>, k: nat)
    requires k < |Latest(records)|
    ensures Latest(records)[k] == records[|records| - |Latest(records)| + k]
  {
  }

  lemma RankIsOrder(h: seq<Record>, order: seq<nat>, j: nat)
    requires StableOrder(h, order) && j < |h|
    ensures |Everything(h)| == |h| && Everything(h)[j] == h[order[j]]
  {
    RanksPointAt(h);
    RanksAreStable(h);
    StableOrderIsUnique(h, order, Ranks(h), j);
  }

  /** An append keeps the selection on its record, or on the oldest one kept if that record left. */
  lemma SelectionFollows(t: Tab, r: Record)
    requires InRange(t) && t.records != []
    ensures var t' := AppendTo(t, r);
            var row := Follow(t.selected, InsertAt(t.records, r.timestamp), |t.records| + 1 - |t'.records|);
            if row >= 0 then t'.selected == row < |t'.records| && t'.records[row] == t.records[t.selected]
            else row == -1 && t'.selected == 0
  {
    var all, p := Insert(t.records, r), InsertAt(t.records, r.timestamp);
    InsertMoves(t.records, r, t.selected);
    var row := Follow(t.selected, p, |all| - |Latest(all)|);
    if row >= 0 {
      LatestMoves(all, if p <= t.selected then t.selected + 1 else t.selected);
    }
  }

  /** Where a row goes when a record is put in, ... */
  lemma InsertMoves(records: seq<Record>, r: Record, i: nat)
    requires i < |records|
    ensures |Insert(records, r)| == |records| + 1
    ensures Insert(records, r)[if InsertAt(records, r.timestamp) <= i then i + 1 else i] == records[i]
  {
  }

  /** ... and when the oldest are dropped. */
  lemma LatestMoves(records: seq<Record>, i: nat)
    requires i < |records| && i >= |records| - |Latest(records)|
    ensures Latest(records)[i - (|records| - |Latest(records)|)] == records[i]
  {
  }

  // ---------- the model object ----------

  ghost predicate GoodTab(t: Tab) {
    InRange(t) && TimeSorted(t.records)
  }

  lemma AppendKeepsGood(t: Tab, r: Record)
    requires GoodTab(t)
    ensures GoodTab(AppendTo(t, r))
  {
    InsertSortedByTime(t.records, r);
    AppendStaysInRange(t, r);
  }

  /** Put a record in its place and drop the oldest beyond the limit. */
  method InsertRecord(before: seq<Record>, record: Record) returns (records: seq<Record>, insertAt: nat, dropped: nat)
    requires TimeSorted(before)
    ensures records == Latest(Insert(before, record))
    ensures insertAt == InsertAt(before, record.timestamp)
    ensures dropped == |Insert(before, record)| - |records|
  {
    insertAt := Search(before, record.timestamp);
    records, dropped := before[..insertAt] + [record] + before[insertAt..], 0;
    if |records| > MAX_EVENTS_PER_TAB {
      dropped := |records| - MAX_EVENTS_PER_TAB;
      records := records[dropped..];
    }
  }

  /** A row number after an insertion into a list that now has `count` rows. */
  method FollowRow(row: int, insertAt: nat, dropped: nat, count: nat) returns (r: int)
    requires count > 0
    ensures r == RowAfter(row, insertAt, dropped, count)
  {
    r := row;
    if count + dropped > 1 && insertAt <= r {
      r := r + 1;
    }
    r := r - dropped;
    if r >= count {
      r := count - 1;
    }
    r := Max(0, r);
  }

  /** The list, the selected row and the scroll position after a record is put in. */
  method AppendCore(before: Tab, record: Record) returns (t: Tab)
    requires GoodTab(before)
    ensures t == AppendTo(before, record) && GoodTab(t)
  {
    var records, insertAt, dropped := InsertRecord(before.records, record);
    assert |Insert(before.records, record)| == |before.records| + 1;
    var selected := FollowRow(before.selected, insertAt, dropped, |records|);
    var listStart := FollowRow(before.listStart, insertAt, dropped, |records|);
    t := Tab(records, selected, listStart);
    AppendKeepsGood(before, record);
  }

  method WindowCore(listStart: int, total: int, height: int, selected: int) returns (start: int)
    ensures start == WindowStart(listStart, total, height, selected)
  {
    start := listStart;
    if total <= 0 || height <= 0 {
      return 0;
    }
    var maxStart := Max(0, total - height);
    if start > maxStart {
      start := maxStart;
    }
    if start < 0 {
      start := 0;
    }
    var scrollOff := Min(LIST_SCROLL_OFF, Max(0, height - 1));
    if selected < start + scrollOff {
      start := Max(0, selected - scrollOff);
    }
    var lowerBound := start + height - 1 - scrollOff;
    if selected > lowerBound {
      start := Min(maxStart, selected - (height - 1 - scrollOff));
    }
  }

  datatype PairCache = PairCache(pairs: seq<Pair>, maxLevel: nat, recordCount: nat, valid: bool)

  class Model {
    var recordsByTab: map<string, seq<Record>>
    var selectedByTab: map<string, int>
    var listStartByTab: map<string, int>
    var currentTab: string
    var allTabPairs: PairCache

    ghost function TabOf(tab: string): Tab
      reads this`recordsByTab, this`selectedByTab, this`listStartByTab
    {
      Tab(if tab in recordsByTab then recordsByTab[tab] else [],
          if tab in selectedByTab then selectedByTab[tab] else 0,
          if tab in listStartByTab then listStartByTab[tab] else 0)
    }

    /** Every tab is in time order, and a valid cache is what recomputation would give. */
    ghost predicate Valid()
      reads this
    {
      && (forall tab :: GoodTab(TabOf(tab)))
      && (allTabPairs.valid ==> (allTabPairs.pairs, allTabPairs.maxLevel) == SessionPairs(TabOf(ALL_TAB).records))
    }

    constructor ()
      ensures Valid() && forall tab :: TabOf(tab) == Tab([], 0, 0)
    {
      recordsByTab, selectedByTab, listStartByTab := map[], map[], map[];
      currentTab, allTabPairs := ALL_TAB, PairCache([], 0, 0, false);
    }

    /** Change one tab; the cached pairs are not those of a changed list of everything. */
    method Put(tab: string, t: Tab)
      requires Valid() && GoodTab(t)
      modifies this`recordsByTab, this`selectedByTab, this`listStartByTab, this`allTabPairs
      ensures Valid() && TabOf(tab) == t
      ensures forall other :: other != tab ==> TabOf(other) == old(TabOf(other))
    {
      recordsByTab := recordsByTab[tab := t.records];
      selectedByTab := selectedByTab[tab := t.selected];
      listStartByTab := listStartByTab[tab := t.listStart];
      if tab == ALL_TAB {
        allTabPairs := allTabPairs.(valid := false);
      } else {
        assert TabOf(ALL_TAB) == old(TabOf(ALL_TAB));
      }
      forall x ensures GoodTab(TabOf(x)) {
        assert x != tab ==> TabOf(x) == old(TabOf(x));
      }
    }

    method AppendRecord(tab: string, record: Record)
      requires Valid()
      modifies this`recordsByTab, this`selectedByTab, this`listStartByTab, this`allTabPairs
      ensures Valid()
      ensures TabOf(tab) == AppendTo(old(TabOf(tab)), record)
      ensures forall other :: other != tab ==> TabOf(other) == old(TabOf(other))
    {
      assert GoodTab(TabOf(tab));
      var t := AppendCore(Tab(if tab in recordsByTab then recordsByTab[tab] else [],
                              if tab in selectedByTab then selectedByTab[tab] else 0,
                              if tab in listStartByTab then listStartByTab[tab] else 0), record);
      Put(tab, t);
    }

    method MoveSelection(delta: int)
      requires Valid()
      modifies this`selectedByTab
      ensures Valid()
      ensures TabOf(currentTab) == MoveBy(old(TabOf(currentTab)), delta)
      ensures forall other :: other != currentTab ==> TabOf(other) == old(TabOf(other))
    {
      var records := if currentTab in recordsByTab then recordsByTab[currentTab] else [];
      if records == [] {
        return;
      }
      var selected := if currentTab in selectedByTab then selectedByTab[currentTab] else 0;
      var next := Max(0, selected + delta);
      if next >= |records| {
        next := |records| - 1;
      }
      selectedByTab := selectedByTab[currentTab := next];
      forall x ensures GoodTab(TabOf(x)) {
        assert TabOf(x).records == old(TabOf(x)).records;
      }
    }

    method AdjustListStart(total: int, height: int, selected: int) returns (start: int)
      requires Valid() && total == |TabOf(currentTab).records| && selected == TabOf(currentTab).selected
      modifies this`listStartByTab
      ensures Valid()
      ensures start == WindowStart(old(TabOf(currentTab)).listStart, total, height, selected)
      ensures TabOf(currentTab) == old(TabOf(currentTab)).(listStart := start)
      ensures forall other :: other != currentTab ==> TabOf(other) == old(TabOf(other))
    {
      ghost var t := TabOf(currentTab);
      start := WindowCore(
        if currentTab in listStartByTab then listStartByTab[currentTab] else 0, total, height, selected);
      listStartByTab := listStartByTab[currentTab := start];
      if total > 0 && height > 0 {
        WindowShowsSelection(t.listStart, total, height, selected);
      }
      forall x ensures GoodTab(TabOf(x)) {
        assert TabOf(x).records == old(TabOf(x)).records;
      }
    }

    method RefreshAllTabPairCache()
      requires Valid()
      modifies this`allTabPairs
      ensures Valid() && allTabPairs.valid
    {
      var records := if ALL_TAB in recordsByTab then recordsByTab[ALL_TAB] else [];
      var pairs, maxLevel := BuildSessionPairs(records);
      allTabPairs := PairCache(pairs, maxLevel, |records|, true);
      forall x ensures GoodTab(TabOf(x)) {
        assert TabOf(x) == old(TabOf(x));
      }
      assert TabOf(ALL_TAB).records == records;
    }

    /** The pairs to draw, cached or not, are those of the records as they are now. */
    method AllTabSessionPairs() returns (pairs: seq<Pair>, maxLevel: nat)
      requires Valid()
      ensures (pairs, maxLevel) == SessionPairs(TabOf(ALL_TAB).records)
    {
      var records := if ALL_TAB in recordsByTab then recordsByTab[ALL_TAB] else [];
      if allTabPairs.valid && allTabPairs.recordCount == |records| {
        return allTabPairs.pairs, allTabPairs.maxLevel;
      }
      pairs, maxLevel := BuildSessionPairs(records);
    }
  }
}
