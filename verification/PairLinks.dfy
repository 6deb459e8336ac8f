/**
 What is drawn beside the visible rows (tui/pairs.go, `buildVisiblePairAnnotations`): for a
 window of rows, one cell per row and lane.  The window is computed on its own, leaving
 the pair list as soon as a pair starts below it, and still agrees with the whole list.
 */
module PairLinks {
  import opened Common
  import opened Pairs

  datatype Link = NoLink | Dot | Pipe

  /** The pairs of one lane that reach a row, as drawn there. */
  function CellOf(p: Pair, row: int, level: nat): Link {
    if p.level != level || !Covers(p, row) then NoLink
    else if row == p.start || row == p.end then Dot else Pipe
  }

  /** A cell shows an end of a pair in its lane, or its inside, or nothing. */
  ghost predicate CellShows(pairs: seq<Pair>, row: int, level: nat, link: Link) {
    match link
    case NoLink => forall i :: 0 <= i < |pairs| ==> CellOf(pairs[i], row, level) == NoLink
    case _ => exists i :: 0 <= i < |pairs| && CellOf(pairs[i], row, level) == link
  }

  /** The drawing of rows `start` up to `end`; rows are left bare when there is nothing to draw at all. */
  ghost predicate Draws(pairs: seq<Pair>, maxLevel: nat, start: int, end: int, rows: seq<seq<Link>>) {
    && |rows| == Max(0, end - start)
    && forall r :: 0 <= r < |rows| ==>
         if pairs == [] || maxLevel == 0 then rows[r] == []
         else |rows[r]| == maxLevel && forall l :: 0 <= l < maxLevel ==> CellShows(pairs, start + r, l, rows[r][l])
  }

  /** What the window is given: pairs in order of their first rows, in disjoint lanes. */
  ghost predicate Drawable(pairs: seq<Pair>, maxLevel: nat) {
    && (forall i, j :: 0 <= i < j < |pairs| ==> pairs[i].start <= pairs[j].start)
    && LanesDisjoint(pairs)
    && (forall i :: 0 <= i < |pairs| ==> pairs[i].level < maxLevel && pairs[i].start <= pairs[i].end)
  }

  /** Disjoint lanes leave no doubt what a cell shows. */
  lemma CellIsUnique(pairs: seq<Pair>, maxLevel: nat, row: int, level: nat, a: Link, b: Link)
    requires Drawable(pairs, maxLevel)
    requires CellShows(pairs, row, level, a) && CellShows(pairs, row, level, b)
    ensures a == b
  {
    if a != NoLink && b != NoLink {
      var i :| 0 <= i < |pairs| && CellOf(pairs[i], row, level) == a;
      var j :| 0 <= j < |pairs| && CellOf(pairs[j], row, level) == b;
      assert i == j;
    }
  }

  /** One pair more. */
  lemma CellStep(pairs: seq<Pair>, p: Pair, row: int, level: nat, link: Link)
    requires LanesDisjoint(pairs + [p]) && CellShows(pairs, row, level, link) && p.start <= p.end
    ensures CellOf(p, row, level) == NoLink ==> CellShows(pairs + [p], row, level, link)
    ensures CellOf(p, row, level) != NoLink ==> CellShows(pairs + [p], row, level, CellOf(p, row, level))
  {
    var all := pairs + [p];
    assert all[|pairs|] == p && forall i :: 0 <= i < |pairs| ==> all[i] == pairs[i];
    if link != NoLink {
      var i :| 0 <= i < |pairs| && CellOf(pairs[i], row, level) == link;
      assert CellOf(all[i], row, level) == link;
    }
  }

  /** Cells of the first `n` pairs, in every row of the window. */
  ghost predicate Drawn(pairs: seq<Pair>, maxLevel: nat, start: int, rows: seq<seq<Link>>) {
    forall r :: 0 <= r < |rows| ==>
      |rows[r]| == maxLevel && forall l :: 0 <= l < maxLevel ==> CellShows(pairs, start + r, l, rows[r][l])
  }

  /** Draw one pair into one row. */
  function DrawCell(row: seq<Link>, p: Pair, at: int): seq<Link>
    requires p.level < |row|
  {
    row[p.level := if at == p.start || at == p.end then Dot else Pipe]
  }

  /** Draw one pair into the rows it reaches. */
  method DrawPair(p: Pair, start: int, end: int, rows: seq<seq<Link>>) returns (out: seq<seq<Link>>)
    requires start < end && |rows| == end - start
    requires forall r :: 0 <= r < |rows| ==> p.level < |rows[r]|
    ensures |out| == |rows|
    ensures forall r :: 0 <= r < |rows| ==>
              out[r] == if Covers(p, start + r) then DrawCell(rows[r], p, start + r) else rows[r]
  {
    out := rows;
    var lineStart := Max(start, p.start);
    var lineEnd := Min(end - 1, p.end);
    var idx := lineStart;
    while idx <= lineEnd
      invariant lineStart <= idx && |out| == |rows|
      invariant lineStart <= lineEnd ==> idx <= lineEnd + 1
      invariant forall r :: 0 <= r < |rows| ==>
                  out[r] == if Covers(p, start + r) && start + r < idx then DrawCell(rows[r], p, start + r) else rows[r]
    {
      out := out[idx - start := out[idx - start][p.level := Pipe]];
      if idx == p.start || idx == p.end {
        out := out[idx - start := out[idx - start][p.level := Dot]];
      }
      idx := idx + 1;
    }
  }

  lemma DrawnStep(pairs: seq<Pair>, p: Pair, maxLevel: nat, start: int, rows: seq<seq<Link>>, out: seq<seq<Link>>)
    requires Drawn(pairs, maxLevel, start, rows) && LanesDisjoint(pairs + [p]) && p.level < maxLevel && p.start <= p.end
    requires |out| == |rows|
    requires forall r :: 0 <= r < |rows| ==>
               out[r] == if Covers(p, start + r) then DrawCell(rows[r], p, start + r) else rows[r]
    ensures Drawn(pairs + [p], maxLevel, start, out)
  {
    forall r, l | 0 <= r < |rows| && 0 <= l < maxLevel
      ensures CellShows(pairs + [p], start + r, l, out[r][l])
    {
      CellStep(pairs, p, start + r, l, rows[r][l]);
    }
  }

  lemma DrawableAt(pairs: seq<Pair>, maxLevel: nat, i: nat)
    requires Drawable(pairs, maxLevel) && i < |pairs|
    ensures pairs[..i + 1] == pairs[..i] + [pairs[i]] && LanesDisjoint(pairs[..i] + [pairs[i]])
    ensures pairs[i].level < maxLevel && pairs[i].start <= pairs[i].end
  {
    assert pairs[..i + 1] == pairs[..i] + [pairs[i]];
  }

  /** Draw the next pair, if the window shows any of it. */
  method DrawNext(
    ghost before: seq<Pair>, p: Pair, maxLevel: nat, start: int, end: int, rows: seq<seq<Link>>)
    returns (out: seq<seq<Link>>)
    requires start < end && |rows| == end - start && p.start < end
    requires Drawn(before, maxLevel, start, rows) && LanesDisjoint(before + [p])
    requires p.level < maxLevel && p.start <= p.end
    ensures |out| == |rows| && Drawn(before + [p], maxLevel, start, out)
  {
    out := rows;
    if p.end >= start {
      out := DrawPair(p, start, end, rows);
    }
    DrawnStep(before, p, maxLevel, start, rows, out);
  }

  method VisibleAnnotations(start: int, end: int, pairs: seq<Pair>, maxLevel: nat) returns (rows: seq<seq<Link>>)
    requires Drawable(pairs, maxLevel)
    ensures Draws(pairs, maxLevel, start, end, rows)
  {
    rows := seq(Max(0, end - start), _ => []);
    if pairs == [] || maxLevel == 0 || end <= start {
      return;
    }
    rows := seq(end - start, _ => seq(maxLevel, _ => NoLink));
    var i := 0;
    while i < |pairs|
      invariant 0 <= i <= |pairs| && |rows| == end - start
      invariant Drawn(pairs[..i], maxLevel, start, rows)
      decreases |pairs| - i
    {
      var p := pairs[i];
      if p.start >= end {
        break;
      }
      DrawableAt(pairs, maxLevel, i);
      rows := DrawNext(pairs[..i], p, maxLevel, start, end, rows);
      i := i + 1;
    }
    BelowWindow(pairs, maxLevel, i, start, end, rows);
  }

  /** Pairs that start below the window do not change it. */
  lemma BelowWindow(pairs: seq<Pair>, maxLevel: nat, n: nat, start: int, end: int, rows: seq<seq<Link>>)
    requires Drawable(pairs, maxLevel) && n <= |pairs| && Drawn(pairs[..n], maxLevel, start, rows)
    requires n < |pairs| ==> pairs[n].start >= end
    requires |rows| == end - start
    ensures Drawn(pairs, maxLevel, start, rows)
  {
    forall r, l | 0 <= r < |rows| && 0 <= l < maxLevel
      ensures CellShows(pairs, start + r, l, rows[r][l])
    {
      var row := start + r;
      assert forall i :: n <= i < |pairs| ==> CellOf(pairs[i], row, l) == NoLink;
      var link := rows[r][l];
      assert CellShows(pairs[..n], row, l, link);
      if link != NoLink {
        var i :| 0 <= i < n && CellOf(pairs[..n][i], row, l) == link;
        assert CellOf(pairs[i], row, l) == link;
      } else {
        assert forall i :: 0 <= i < n ==> pairs[..n][i] == pairs[i];
      }
    }
  }

  /** A window shows what the whole list shows in the same rows. */
  lemma WindowIsSlice(
      pairs: seq<Pair>, maxLevel: nat, n: nat, start: nat, end: nat, whole: seq<seq<Link>>, window: seq<seq<Link>>)
    requires Drawable(pairs, maxLevel) && start <= end <= n
    requires Draws(pairs, maxLevel, 0, n, whole) && Draws(pairs, maxLevel, start, end, window)
    ensures window == whole[start..end]
  {
    forall r | 0 <= r < |window| ensures window[r] == whole[start + r] {
      if pairs != [] && maxLevel != 0 {
        forall l | 0 <= l < maxLevel ensures window[r][l] == whole[start + r][l] {
          CellIsUnique(pairs, maxLevel, start + r, l, window[r][l], whole[start + r][l]);
        }
      }
    }
  }

  /** The table of session pairs can always be drawn. */
  lemma SessionPairsAreDrawable(records: seq<Record>)
    ensures Drawable(SessionPairs(records).0, SessionPairs(records).1)
  {
    var (pairs, n) := SessionPairs(records);
    PairLanesAreOptimal(records);
    forall i, j | 0 <= i < j < |pairs| ensures pairs[i].start <= pairs[j].start {
      PairsAscend(records, i, j);
    }
    forall i | 0 <= i < |pairs| ensures pairs[i].start <= pairs[i].end {
      PairsAreMatches(records, pairs[i].start, pairs[i].end);
    }
  }
}
