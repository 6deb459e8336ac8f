/**
 Request/response pairs in the event list and the lanes they are drawn in (tui/pairs.go).

 A pair is an interval of rows.  Matching finds the pairs, a greedy pass over them in
 order of their first row puts each into the lowest free lane, and the annotations say,
 row by row and lane by lane, what to draw.
 */
module Pairs {
  import opened Common

  datatype Record = Record(endpoint: string, key: string, timestamp: int)

  datatype Pair = Pair(start: int, end: int, level: nat)

  // ---------- which rows belong together ----------

  predicate IsRequest(r: Record) {
    r.key != "" && r.endpoint == "http_request"
  }

  predicate IsResponse(r: Record) {
    r.key != "" && r.endpoint == "http_response"
  }

  /** No request or response with the key lies strictly between the two rows. */
  ghost predicate QuietBetween(records: seq<Record>, key: string, s: int, e: int)
    requires 0 <= s && e <= |records|
  {
    forall m :: s < m < e ==> !((IsRequest(records[m]) || IsResponse(records[m])) && records[m].key == key)
  }

  /** A response, and the latest request before it with its key, not answered in between. */
  ghost predicate Matches(records: seq<Record>, s: int, e: int) {
    && 0 <= s < e < |records|
    && IsRequest(records[s]) && IsResponse(records[e]) && records[s].key == records[e].key
    && QuietBetween(records, records[e].key, s, e)
  }

  /** Each row is an endpoint of at most one pair, and never both ends of two. */
  lemma EndpointsAreUnique(records: seq<Record>, s: int, e: int, s': int, e': int)
    requires Matches(records, s, e) && Matches(records, s', e')
    ensures s == s' <==> e == e'
    ensures s != e'
  {
    assert !(s < s' < e) || records[s'].key != records[e].key;
    assert !(s' < s < e') || records[s].key != records[e'].key;
    assert !(s < e' < e) || records[e'].key != records[e].key;
    assert !(s' < e < e') || records[e].key != records[e'].key;
  }

  /** What the table of open requests holds after `n` rows. */
  ghost predicate OpenRequests(records: seq<Record>, n: nat, open: map<string, int>)
    requires n <= |records|
  {
    && (forall k :: k in open ==>
          0 <= open[k] < n && IsRequest(records[open[k]]) && records[open[k]].key == k
          && QuietBetween(records, k, open[k], n))
    && (forall s :: 0 <= s < n && IsRequest(records[s]) && QuietBetween(records, records[s].key, s, n) ==>
          records[s].key in open && open[records[s].key] == s)
  }

  predicate EndsAscend(pairs: seq<Pair>) {
    forall i, j :: 0 <= i < j < |pairs| ==> pairs[i].end < pairs[j].end
  }

  datatype Matching = Matching(open: map<string, int>, pairs: seq<Pair>)

  /** The matching pass over the first `n` rows. */
  function MatchUpTo(records: seq<Record>, n: nat): Matching
    requires n <= |records|
  {
    if n == 0 then Matching(map[], []) else
      var m, r := MatchUpTo(records, n - 1), records[n - 1];
      if IsRequest(r) then m.(open := m.open[r.key := n - 1])
      else if IsResponse(r) && r.key in m.open then
        Matching(m.open - {r.key}, m.pairs + [Pair(m.open[r.key], n - 1, 0)])
      else m
  }

  /** The pairs of the whole list. */
  function Matched(records: seq<Record>): seq<Pair> {
    MatchUpTo(records, |records|).pairs
  }

  /** Exactly the matches among the first `n` rows, in order of their responses. */
  ghost predicate Found(records: seq<Record>, n: nat, pairs: seq<Pair>) {
    && EndsAscend(pairs)
    && (forall p :: p in pairs ==> p.level == 0 && p.end < n && Matches(records, p.start, p.end))
    && (forall s, e :: Matches(records, s, e) && e < n ==> Pair(s, e, 0) in pairs)
  }

  method MatchPairs(records: seq<Record>) returns (found: seq<Pair>)
    ensures found == Matched(records)
    ensures Found(records, |records|, found)
  {
    var requests: map<string, int> := map[];
    var i := 0;
    found := [];
    while i < |records|
      invariant 0 <= i <= |records|
      invariant Matching(requests, found) == MatchUpTo(records, i)
    {
      MatchingFinds(records, i);
      var r := records[i];
      if r.key != "" {
        if r.endpoint == "http_request" {
          requests := requests[r.key := i];
        } else if r.endpoint == "http_response" {
          if r.key in requests && requests[r.key] < i {
            found := found + [Pair(requests[r.key], i, 0)];
            requests := requests - {r.key};
          }
        }
      }
      i := i + 1;
    }
    MatchingFinds(records, i);
  }

  ghost predicate Finds(records: seq<Record>, n: nat, m: Matching)
    requires n <= |records|
  {
    OpenRequests(records, n, m.open) && Found(records, n, m.pairs)
  }

  lemma {:induction false} MatchingFinds(records: seq<Record>, n: nat)
    requires n <= |records|
    ensures Finds(records, n, MatchUpTo(records, n))
  {
    if n > 0 {
      MatchingFinds(records, n - 1);
      MatchStep(records, n);
      FindsStep(records, n - 1, MatchUpTo(records, n - 1), MatchUpTo(records, n));
    }
  }

  predicate Follows(r: Record, i: nat, m: Matching, m': Matching) {
    && m'.open == (if IsRequest(r) then m.open[r.key := i] else if IsResponse(r) then m.open - {r.key} else m.open)
    && m'.pairs == (if IsResponse(r) && r.key in m.open then m.pairs + [Pair(m.open[r.key], i, 0)] else m.pairs)
  }

  lemma FindsStep(records: seq<Record>, i: nat, m: Matching, m': Matching)
    requires i < |records| && Finds(records, i, m) && Follows(records[i], i, m, m')
    ensures Finds(records, i + 1, m')
  {
    OpenStep(records, i, m.open, m'.open);
    FoundStep(records, i, m.open, m.pairs);
  }

  /** How one row moves the table and the pairs. */
  lemma MatchStep(records: seq<Record>, n: nat)
    requires 0 < n <= |records|
    ensures Follows(records[n - 1], n - 1, MatchUpTo(records, n - 1), MatchUpTo(records, n))
  {
    var m, r := MatchUpTo(records, n - 1), records[n - 1];
    assert r.key !in m.open ==> m.open - {r.key} == m.open;
  }

  /** A row adds at most the one match it ends. */
  lemma FoundStep(records: seq<Record>, i: nat, open: map<string, int>, pairs: seq<Pair>)
    requires i < |records| && OpenRequests(records, i, open) && Found(records, i, pairs)
    ensures var r := records[i];
            Found(records, i + 1, if IsResponse(r) && r.key in open then pairs + [Pair(open[r.key], i, 0)] else pairs)
  {
    var r := records[i];
    if IsResponse(r) {
      MatchAtResponse(records, i, open);
      if r.key in open {
        FoundOneMore(records, i, open[r.key], pairs);
      } else {
        FoundNoMore(records, i, pairs);
      }
    } else {
      FoundNoMore(records, i, pairs);
    }
  }

  lemma FoundNoMore(records: seq<Record>, i: nat, pairs: seq<Pair>)
    requires i < |records| && Found(records, i, pairs) && forall s :: !Matches(records, s, i)
    ensures Found(records, i + 1, pairs)
  {
  }

  lemma FoundOneMore(records: seq<Record>, i: nat, start: int, pairs: seq<Pair>)
    requires i < |records| && Found(records, i, pairs) && forall s :: Matches(records, s, i) <==> s == start
    ensures Found(records, i + 1, pairs + [Pair(start, i, 0)])
  {
    var pairs' := pairs + [Pair(start, i, 0)];
    assert Matches(records, start, i);
    assert forall p :: p in pairs' <==> p in pairs || p == Pair(start, i, 0);
    forall a, b | 0 <= a < b < |pairs'| ensures pairs'[a].end < pairs'[b].end {
      assert pairs'[a] in pairs;
    }
  }

  lemma QuietSnoc(records: seq<Record>, key: string, s: int, i: nat)
    requires 0 <= s < i < |records|
    ensures QuietBetween(records, key, s, i + 1) <==>
              QuietBetween(records, key, s, i) &&
              !((IsRequest(records[i]) || IsResponse(records[i])) && records[i].key == key)
  {
  }

  /** The table after one more row. */
  lemma OpenStep(records: seq<Record>, i: nat, open: map<string, int>, open': map<string, int>)
    requires i < |records| && OpenRequests(records, i, open)
    requires open' == if IsRequest(records[i]) then open[records[i].key := i]
                      else if IsResponse(records[i]) then open - {records[i].key} else open
    ensures OpenRequests(records, i + 1, open')
  {
    forall s | 0 <= s < i + 1 && IsRequest(records[s]) && QuietBetween(records, records[s].key, s, i + 1)
      ensures records[s].key in open' && open'[records[s].key] == s
    {
      if s < i {
        QuietSnoc(records, records[s].key, s, i);
      }
    }
    forall k | k in open'
      ensures 0 <= open'[k] < i + 1 && IsRequest(records[open'[k]]) && records[open'[k]].key == k
              && QuietBetween(records, k, open'[k], i + 1)
    {
      if open'[k] != i {
        QuietSnoc(records, k, open'[k], i);
      }
    }
  }

  /** At a response, the table names the only row it can be matched with. */
  lemma MatchAtResponse(records: seq<Record>, i: nat, open: map<string, int>)
    requires i < |records| && OpenRequests(records, i, open) && IsResponse(records[i])
    ensures forall s :: Matches(records, s, i) <==> records[i].key in open && open[records[i].key] == s
  {
  }

  // ---------- ordering by first row ----------

  predicate Before(a: Pair, b: Pair) {
    a.start < b.start || (a.start == b.start && a.end <= b.end)
  }

  ghost predicate Sorted(pairs: seq<Pair>) {
    forall i, j :: 0 <= i < j < |pairs| ==> Before(pairs[i], pairs[j])
  }

  function InsertSorted(p: Pair, pairs: seq<Pair>): seq<Pair> {
    if pairs == [] || Before(p, pairs[0]) then [p] + pairs else [pairs[0]] + InsertSorted(p, pairs[1..])
  }

  /** Stands for the library sort; any sort gives the same list, since no two starts agree. */
  function SortPairs(pairs: seq<Pair>): seq<Pair> {
    if pairs == [] then [] else InsertSorted(pairs[0], SortPairs(pairs[1..]))
  }

  lemma {:induction false} InsertKeepsAll(p: Pair, pairs: seq<Pair>)
    ensures multiset(InsertSorted(p, pairs)) == multiset{p} + multiset(pairs)
  {
    if !(pairs == [] || Before(p, pairs[0])) {
      InsertKeepsAll(p, pairs[1..]);
      assert pairs == [pairs[0]] + pairs[1..];
    }
  }

  lemma ConsIsSorted(p: Pair, rest: seq<Pair>)
    requires Sorted(rest) && forall q :: q in rest ==> Before(p, q)
    ensures Sorted([p] + rest)
  {
  }

  lemma {:induction false} InsertIsSorted(p: Pair, pairs: seq<Pair>)
    requires Sorted(pairs)
    ensures Sorted(InsertSorted(p, pairs))
  {
    if pairs == [] || Before(p, pairs[0]) {
      forall q | q in pairs ensures Before(p, q) {
        assert q == pairs[0] || Before(pairs[0], q);
      }
      ConsIsSorted(p, pairs);
    } else {
      var tail := pairs[1..];
      InsertIsSorted(p, tail);
      InsertKeepsAll(p, tail);
      forall q | q in InsertSorted(p, tail) ensures Before(pairs[0], q) {
        assert q in multiset(InsertSorted(p, tail));
      }
      ConsIsSorted(pairs[0], InsertSorted(p, tail));
    }
  }

  lemma {:induction false} SortIsSorted(pairs: seq<Pair>)
    ensures Sorted(SortPairs(pairs)) && multiset(SortPairs(pairs)) == multiset(pairs)
  {
    if pairs != [] {
      SortIsSorted(pairs[1..]);
      InsertKeepsAll(pairs[0], SortPairs(pairs[1..]));
      InsertIsSorted(pairs[0], SortPairs(pairs[1..]));
      assert pairs == [pairs[0]] + pairs[1..];
    }
  }

  // ---------- lanes ----------

  predicate Covers(p: Pair, row: int) {
    p.start <= row <= p.end
  }

  /** The pairs drawn in a row, by position. */
  ghost function Covering(pairs: seq<Pair>, row: int): set<nat> {
    set i: nat | i < |pairs| && Covers(pairs[i], row)
  }

  /** Pairs in one lane share no row. */
  ghost predicate LanesDisjoint(pairs: seq<Pair>) {
    forall i, j :: 0 <= i < j < |pairs| && pairs[i].level == pairs[j].level ==> pairs[i].end < pairs[j].start
  }

  ghost predicate Proper(pairs: seq<Pair>) {
    Sorted(pairs) && forall i :: 0 <= i < |pairs| ==> pairs[i].start <= pairs[i].end
  }

  /** `held[l]` is the last pair put into lane `l`, whose end is `ends[l]`. */
  ghost predicate LanesHold(out: seq<Pair>, ends: seq<int>, held: seq<nat>) {
    && |ends| == |held|
    && (forall l :: 0 <= l < |ends| ==> held[l] < |out| && out[held[l]].level == l && out[held[l]].end == ends[l])
    && (forall i :: 0 <= i < |out| ==> out[i].level < |ends|)
    && (forall i, l :: 0 <= i < |out| && 0 <= l < |ends| && out[i].level == l ==> out[i].end <= ends[l])
  }

  /** One pair of each of the first `n` lanes, all drawn in the same row. */
  ghost predicate Crowded(out: seq<Pair>, row: int, crowd: seq<nat>) {
    forall l :: 0 <= l < |crowd| ==> crowd[l] < |out| && out[crowd[l]].level == l && Covers(out[crowd[l]], row)
  }

  /** The lanes after one more pair. */
  lemma HoldStep(out: seq<Pair>, ends: seq<int>, held: seq<nat>, p: Pair)
    requires LanesHold(out, ends, held) && p.level <= |ends|
    requires p.level < |ends| ==> ends[p.level] <= p.end
    ensures var l := p.level;
            if l == |ends| then LanesHold(out + [p], ends + [p.end], held + [|out|])
            else LanesHold(out + [p], ends[l := p.end], held[l := |out|])
  {
  }

  lemma DisjointStep(out: seq<Pair>, ends: seq<int>, held: seq<nat>, p: Pair)
    requires LanesHold(out, ends, held) && LanesDisjoint(out)
    requires p.level < |ends| ==> ends[p.level] < p.start
    ensures LanesDisjoint(out + [p])
  {
  }

  /** When every lane is busy, the last pairs of the lanes and the new one meet in its first row. */
  lemma CrowdStep(out: seq<Pair>, ends: seq<int>, held: seq<nat>, p: Pair)
    requires LanesHold(out, ends, held) && p.level == |ends| && p.start <= p.end
    requires forall l :: 0 <= l < |ends| ==> ends[l] >= p.start
    requires forall i :: 0 <= i < |out| ==> out[i].start <= p.start
    ensures Crowded(out + [p], p.start, held + [|out|])
  {
  }

  lemma CrowdStays(out: seq<Pair>, row: int, crowd: seq<nat>, p: Pair)
    requires Crowded(out, row, crowd)
    ensures Crowded(out + [p], row, crowd)
  {
  }

  /** The same rows, lanes aside. */
  ghost predicate SameRows(out: seq<Pair>, pairs: seq<Pair>) {
    |out| <= |pairs| && forall i :: 0 <= i < |out| ==> out[i].start == pairs[i].start && out[i].end == pairs[i].end
  }

  lemma EarlierStarts(out: seq<Pair>, pairs: seq<Pair>)
    requires SameRows(out, pairs) && Sorted(pairs) && |out| < |pairs|
    ensures forall i :: 0 <= i < |out| ==> out[i].start <= pairs[|out|].start
  {
    forall i | 0 <= i < |out| ensures out[i].start <= pairs[|out|].start {
      assert Before(pairs[i], pairs[|out|]);
    }
  }

  function Put<T>(lanes: seq<T>, level: nat, x: T): seq<T>
    requires level <= |lanes|
  {
    if level == |lanes| then lanes + [x] else lanes[level := x]
  }

  /** The lowest lane, from `from` on, whose last pair ended above the given row; a new one if there is none. */
  function LowestFree(ends: seq<int>, start: int, from: nat): (level: nat)
    requires from <= |ends|
    ensures from <= level <= |ends|
    ensures forall l :: from <= l < level ==> ends[l] >= start
    ensures level < |ends| ==> ends[level] < start
    decreases |ends| - from
  {
    if from == |ends| || ends[from] < start then from else LowestFree(ends, start, from + 1)
  }

  datatype Lanes = Lanes(out: seq<Pair>, ends: seq<int>)

  /** The greedy pass over the first `n` pairs. */
  function Greedy(pairs: seq<Pair>, n: nat): (g: Lanes)
    requires n <= |pairs|
    ensures |g.out| == n
  {
    if n == 0 then Lanes([], []) else
      var g, q := Greedy(pairs, n - 1), pairs[n - 1];
      var level := LowestFree(g.ends, q.start, 0);
      Lanes(g.out + [Pair(q.start, q.end, level)], Put(g.ends, level, q.end))
  }

  /** The program's loops compute the greedy pass; the lanes in use are counted as they open. */
  method AssignLanes(pairs: seq<Pair>) returns (out: seq<Pair>, maxLevel: nat)
    ensures Lanes(out, Greedy(pairs, |pairs|).ends) == Greedy(pairs, |pairs|)
    ensures maxLevel == |Greedy(pairs, |pairs|).ends|
  {
    out, maxLevel := [], 0;
    var ends: seq<int> := [];
    for i := 0 to |pairs|
      invariant Lanes(out, ends) == Greedy(pairs, i) && maxLevel == |ends|
    {
      var level := 0;
      while level < |ends|
        invariant level <= |ends| && LowestFree(ends, pairs[i].start, 0) == LowestFree(ends, pairs[i].start, level)
      {
        if ends[level] < pairs[i].start {
          break;
        }
        level := level + 1;
      }
      if level == |ends| {
        ends := ends + [pairs[i].end];
      } else {
        ends := ends[level := pairs[i].end];
      }
      out := out + [Pair(pairs[i].start, pairs[i].end, level)];
      if level + 1 > maxLevel {
        maxLevel := level + 1;
      }
    }
  }

  /** Why a lane assignment is good: what each lane holds, and a row that needs all lanes. */
  datatype Reason = Reason(held: seq<nat>, row: int, crowd: seq<nat>)

  ghost predicate Good(pairs: seq<Pair>, g: Lanes, w: Reason) {
    && SameRows(g.out, pairs) && LanesHold(g.out, g.ends, w.held) && LanesDisjoint(g.out)
    && |w.crowd| == |g.ends| && Crowded(g.out, w.row, w.crowd)
  }

  ghost function NextReason(g: Lanes, w: Reason, p: Pair): Reason
    requires p.level <= |w.held| == |g.ends|
  {
    if p.level == |g.ends| then Reason(w.held + [|g.out|], p.start, w.held + [|g.out|])
    else Reason(w.held[p.level := |g.out|], w.row, w.crowd)
  }

  /** One pair placed: the lanes stay valid, and a new lane comes with a crowded row. */
  lemma LaneStep(pairs: seq<Pair>, g: Lanes, w: Reason, p: Pair)
    requires Good(pairs, g, w) && Proper(pairs) && |g.out| < |pairs|
    requires p.start == pairs[|g.out|].start && p.end == pairs[|g.out|].end
    requires p.level == LowestFree(g.ends, p.start, 0)
    ensures Good(pairs, Lanes(g.out + [p], Put(g.ends, p.level, p.end)), NextReason(g, w, p))
  {
    HoldStep(g.out, g.ends, w.held, p);
    DisjointStep(g.out, g.ends, w.held, p);
    if p.level == |g.ends| {
      EarlierStarts(g.out, pairs);
      CrowdStep(g.out, g.ends, w.held, p);
    } else {
      CrowdStays(g.out, w.row, w.crowd, p);
    }
  }

  /** After any number of pairs the lanes are valid and some row needs every one of them. */
  lemma {:induction false} GreedyLanes(pairs: seq<Pair>, n: nat) returns (w: Reason)
    requires Proper(pairs) && n <= |pairs|
    ensures Good(pairs, Greedy(pairs, n), w)
  {
    if n == 0 {
      w := Reason([], 0, []);
    } else {
      var v := GreedyLanes(pairs, n - 1);
      var g, q := Greedy(pairs, n - 1), pairs[n - 1];
      var p := Pair(q.start, q.end, LowestFree(g.ends, q.start, 0));
      assert Greedy(pairs, n) == Lanes(g.out + [p], Put(g.ends, p.level, p.end));
      LaneStep(pairs, g, v, p);
      w := NextReason(g, v, p);
    }
  }

  // ---------- as many lanes as needed, and no more ----------

  /** An injective naming of a finite set by numbers below `n` bounds its size. */
  lemma {:induction false} Pigeonhole(items: set<nat>, f: nat -> int, n: nat)
    requires forall i :: i in items ==> 0 <= f(i) < n
    requires forall i, j :: i in items && j in items && i != j ==> f(i) != f(j)
    ensures |items| <= n
  {
    if n == 0 {
      assert items == {};
    } else if i :| i in items && f(i) == n - 1 {
      Pigeonhole(items - {i}, f, n - 1);
    } else {
      Pigeonhole(items, f, n - 1);
    }
  }

  /** A colouring of the pairs by `n` lanes in which no two pairs in a lane share a row. */
  ghost predicate Colouring(pairs: seq<Pair>, f: nat -> int, n: nat) {
    && (forall i :: 0 <= i < |pairs| ==> 0 <= f(i) < n)
    && (forall i, j, row :: 0 <= i < j < |pairs| && Covers(pairs[i], row) && Covers(pairs[j], row) ==> f(i) != f(j))
  }

  lemma CoverageBoundsLanes(pairs: seq<Pair>, f: nat -> int, n: nat, row: int)
    requires Colouring(pairs, f, n)
    ensures |Covering(pairs, row)| <= n
  {
    Pigeonhole(Covering(pairs, row), f, n);
  }

  function Elements(items: seq<nat>): set<nat> {
    set x | x in items
  }

  lemma {:induction false} DistinctSize(items: seq<nat>)
    requires forall i, j :: 0 <= i < j < |items| ==> items[i] != items[j]
    ensures |Elements(items)| == |items|
  {
    if items != [] {
      var front, last := items[..|items| - 1], items[|items| - 1];
      DistinctSize(front);
      assert items == front + [last];
      assert last !in Elements(front);
      assert Elements(items) == Elements(front) + {last};
    }
  }

  lemma SubsetSize(a: set<nat>, b: set<nat>)
    requires a <= b
    ensures |a| <= |b|
  {
    assert b == a + (b - a);
  }

  lemma CoveringSame(out: seq<Pair>, pairs: seq<Pair>, row: int)
    requires SameRows(out, pairs) && |out| == |pairs|
    ensures Covering(out, row) == Covering(pairs, row)
  {
  }

  lemma LevelsColour(out: seq<Pair>, n: nat)
    requires LanesDisjoint(out) && forall i :: 0 <= i < |out| ==> out[i].level < n
    ensures Colouring(out, i => if 0 <= i < |out| then out[i].level else 0, n)
  {
  }

  /** The lanes are valid, and there are exactly as many as the fullest row needs. */
  lemma LanesAreOptimal(pairs: seq<Pair>)
    requires Proper(pairs)
    ensures var g := Greedy(pairs, |pairs|);
            && SameRows(g.out, pairs) && LanesDisjoint(g.out)
            && (forall i :: 0 <= i < |g.out| ==> g.out[i].level < |g.ends|)
            && (forall row :: |Covering(pairs, row)| <= |g.ends|)
            && (exists row :: |Covering(pairs, row)| == |g.ends|)
  {
    var g := Greedy(pairs, |pairs|);
    var w := GreedyLanes(pairs, |pairs|);
    LevelsColour(g.out, |g.ends|);
    forall row ensures |Covering(pairs, row)| <= |g.ends| {
      CoveringSame(g.out, pairs, row);
      CoverageBoundsLanes(g.out, i => if 0 <= i < |g.out| then g.out[i].level else 0, |g.ends|, row);
    }
    CoveringSame(g.out, pairs, w.row);
    DistinctSize(w.crowd);
    SubsetSize(Elements(w.crowd), Covering(g.out, w.row));
    assert |Covering(pairs, w.row)| == |g.ends|;
  }

  /** No way of placing the pairs uses fewer lanes. */
  lemma NoFewerLanes(pairs: seq<Pair>, f: nat -> int, n: nat)
    requires Proper(pairs) && Colouring(pairs, f, n)
    ensures |Greedy(pairs, |pairs|).ends| <= n
  {
    LanesAreOptimal(pairs);
    var row :| |Covering(pairs, row)| == |Greedy(pairs, |pairs|).ends|;
    CoverageBoundsLanes(pairs, f, n, row);
  }

  // ---------- the whole table ----------

  /** The pairs in order of their first rows, each with its lane, and the number of lanes. */
  function SessionPairs(records: seq<Record>): (seq<Pair>, nat) {
    var sorted := SortPairs(Matched(records));
    var g := Greedy(sorted, |sorted|);
    (g.out, |g.ends|)
  }

  method BuildSessionPairs(records: seq<Record>) returns (pairs: seq<Pair>, maxLevel: nat)
    ensures (pairs, maxLevel) == SessionPairs(records)
  {
    var found := MatchPairs(records);
    if found == [] {
      return [], 0;
    }
    pairs, maxLevel := AssignLanes(SortPairs(found));
  }

  lemma {:induction false} CountUpTo(pairs: seq<Pair>, p: Pair)
    requires EndsAscend(pairs)
    ensures multiset(pairs)[p] <= 1
  {
    if pairs != [] {
      var front, last := pairs[..|pairs| - 1], pairs[|pairs| - 1];
      assert pairs == front + [last];
      CountUpTo(front, p);
      if p == last {
        assert p !in front;
      }
    }
  }

  lemma TwiceCounts(pairs: seq<Pair>, i: nat, j: nat)
    requires i < j < |pairs| && pairs[i] == pairs[j]
    ensures multiset(pairs)[pairs[i]] >= 2
  {
    assert pairs == pairs[..j] + pairs[j..];
    assert pairs[i] == pairs[..j][i] && pairs[i] == pairs[j..][0];
  }

  /** What the sorted list of matches is made of. */
  lemma SortedMatches(records: seq<Record>)
    ensures var found := Matched(records);
            Proper(SortPairs(found)) && forall p :: p in SortPairs(found) <==> p in found
  {
    var found := Matched(records);
    MatchingFinds(records, |records|);
    SortIsSorted(found);
    forall p ensures p in SortPairs(found) <==> p in found {
      assert p in SortPairs(found) <==> p in multiset(SortPairs(found));
      assert p in found <==> p in multiset(found);
    }
  }

  /** The table holds exactly the matches. */
  lemma PairsAreMatches(records: seq<Record>, s: int, e: int)
    ensures var pairs := SessionPairs(records).0;
            Matches(records, s, e) <==> exists i :: 0 <= i < |pairs| && pairs[i].start == s && pairs[i].end == e
  {
    var found := Matched(records);
    var sorted := SortPairs(found);
    var pairs := SessionPairs(records).0;
    MatchingFinds(records, |records|);
    SortedMatches(records);
    LanesAreOptimal(sorted);
    if Matches(records, s, e) {
      assert Pair(s, e, 0) in sorted;
      var i :| 0 <= i < |sorted| && sorted[i] == Pair(s, e, 0);
      assert pairs[i].start == s && pairs[i].end == e;
    }
    if i :| 0 <= i < |pairs| && pairs[i].start == s && pairs[i].end == e {
      assert sorted[i] in found;
    }
  }

  /** The table repeats nothing: first rows strictly ascend. */
  lemma PairsAscend(records: seq<Record>, i: nat, j: nat)
    requires i < j < |SessionPairs(records).0|
    ensures var pairs := SessionPairs(records).0; pairs[i].start < pairs[j].start
  {
    var found := Matched(records);
    var sorted := SortPairs(found);
    MatchingFinds(records, |records|);
    SortIsSorted(found);
    SortedMatches(records);
    LanesAreOptimal(sorted);
    var p, q := sorted[i], sorted[j];
    EndpointsAreUnique(records, p.start, p.end, q.start, q.end);
    CountUpTo(found, p);
    if p == q {
      TwiceCounts(sorted, i, j);
    }
    assert Before(p, q);
  }

  /** Its lanes are valid, and as many as the fullest row needs. */
  lemma PairLanesAreOptimal(records: seq<Record>)
    ensures var (pairs, n) := SessionPairs(records);
            && LanesDisjoint(pairs)
            && (forall i :: 0 <= i < |pairs| ==> pairs[i].level < n)
            && (forall row :: |Covering(pairs, row)| <= n)
            && (exists row :: |Covering(pairs, row)| == n)
  {
    var sorted := SortPairs(Matched(records));
    SortedMatches(records);
    LanesAreOptimal(sorted);
    var (pairs, n) := SessionPairs(records);
    forall row ensures Covering(pairs, row) == Covering(sorted, row) {
      CoveringSame(pairs, sorted, row);
    }
    var row :| |Covering(sorted, row)| == n;
    assert |Covering(pairs, row)| == n;
  }
}
