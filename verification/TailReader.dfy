/**
 Following a growing file line by line (tui/stream.go): each poll reads what is new, hands
 on the complete lines and keeps the unfinished one.  Over any sequence of polls this is
 one split of everything read; a file that has become shorter is read again from the start.
 */
module TailReader {
  import opened Common

  const NEWLINE: byte := 10

  /** The pieces between newlines; there is always at least one. */
  function Split(b: bytes): (lines: seq<bytes>)
    ensures lines != []
  {
    if b == [] then [[]] else
      var rest := Split(b[1..]);
      if b[0] == NEWLINE then [[]] + rest else Glue(b[0], rest)
  }

  /** A byte put in front of the first piece. */
  function Glue(x: byte, lines: seq<bytes>): (r: seq<bytes>)
    requires lines != []
  {
    [[x] + lines[0]] + lines[1..]
  }

  function Last<T>(s: seq<T>): T
    requires s != []
  {
    s[|s| - 1]
  }

  function Front<T>(s: seq<T>): seq<T>
    requires s != []
  {
    s[..|s| - 1]
  }

  function Join(lines: seq<bytes>): bytes
    requires lines != []
  {
    if |lines| == 1 then lines[0] else lines[0] + [NEWLINE] + Join(lines[1..])
  }

  /** Splitting loses nothing ... */
  lemma {:induction false} SplitJoins(b: bytes)
    ensures Join(Split(b)) == b
  {
    if b != [] {
      SplitJoins(b[1..]);
      var rest, lines := Split(b[1..]), Split(b);
      assert lines[1..] == if b[0] == NEWLINE then rest else rest[1..];
      assert b == [b[0]] + b[1..];
    }
  }

  /** ... and leaves no newline inside a line. */
  lemma {:induction false} SplitIsClean(b: bytes, i: nat)
    requires i < |Split(b)|
    ensures NEWLINE !in Split(b)[i]
  {
    if b != [] {
      var rest := Split(b[1..]);
      if b[0] == NEWLINE {
        if i > 0 {
          SplitIsClean(b[1..], i - 1);
        }
      } else {
        SplitIsClean(b[1..], i);
      }
    }
  }

  lemma GlueAppend(x: byte, u: seq<bytes>, v: seq<bytes>)
    requires u != []
    ensures Glue(x, u + v) == Glue(x, u) + v
  {
    assert (u + v)[1..] == u[1..] + v;
  }

  lemma FrontLast<T>(s: seq<T>, front: seq<T>, last: T)
    requires s == front + [last]
    ensures Front(s) == front && Last(s) == last
  {
  }

  lemma SplitCons(x: byte, b: bytes)
    ensures Split([x] + b) == if x == NEWLINE then [[]] + Split(b) else Glue(x, Split(b))
  {
    assert ([x] + b)[1..] == b;
  }

  /** Splitting more only changes the last piece. */
  lemma {:induction false} SplitMore(a: bytes, b: bytes)
    ensures Split(a + b) == Front(Split(a)) + Split(Last(Split(a)) + b)
  {
    if a == [] {
      FrontLast(Split(a), [], []);
      assert a + b == [] + b == b;
    } else {
      var x, tail := a[0], a[1..];
      assert a == [x] + tail && a + b == [x] + (tail + b);
      SplitMore(tail, b);
      SplitCons(x, tail + b);
      SplitCons(x, tail);
      var front, last := Front(Split(tail)), Last(Split(tail));
      assert Split(tail) == front + [last];
      SplitMoreCons(x, front, last, b);
    }
  }

  lemma SplitMoreCons(x: byte, front: seq<bytes>, last: bytes, b: bytes)
    ensures var lines := if x == NEWLINE then [[]] + (front + [last]) else Glue(x, front + [last]);
            Front(lines) + Split(Last(lines) + b)
            == if x == NEWLINE then [[]] + (front + Split(last + b)) else Glue(x, front + Split(last + b))
  {
    if x == NEWLINE {
      MoreAfterNewline(front, last, Split(last + b));
    } else if front == [] {
      MoreInFirst(x, last, b);
      assert front + [last] == [last] && front + Split(last + b) == Split(last + b);
    } else {
      MoreInLater(x, front, last, Split(last + b));
    }
  }

  lemma MoreAfterNewline(front: seq<bytes>, last: bytes, more: seq<bytes>)
    ensures var lines := [[]] + (front + [last]);
            Last(lines) == last && Front(lines) + more == [[]] + (front + more)
  {
    Assoc([[]], front, [last]);
    FrontLast([[]] + (front + [last]), [[]] + front, last);
    Assoc([[]], front, more);
  }

  lemma MoreInFirst(x: byte, last: bytes, b: bytes)
    requires x != NEWLINE
    ensures var lines := Glue(x, [last]); Front(lines) + Split(Last(lines) + b) == Glue(x, Split(last + b))
  {
    var lines := Glue(x, [last]);
    assert lines == [] + [[x] + last];
    FrontLast(lines, [], [x] + last);
    Assoc([x], last, b);
    SplitCons(x, last + b);
    assert [] + Split(Last(lines) + b) == Split(Last(lines) + b);
  }

  lemma MoreInLater(x: byte, front: seq<bytes>, last: bytes, more: seq<bytes>)
    requires front != []
    ensures var lines := Glue(x, front + [last]); Last(lines) == last && Front(lines) + more == Glue(x, front + more)
  {
    GlueAppend(x, front, [last]);
    GlueAppend(x, front, more);
    FrontLast(Glue(x, front + [last]), Glue(x, front), last);
  }

  /** Complete lines and the rest, after one more chunk. */
  lemma SplitGoesOn(seen: bytes, handed: seq<bytes>, partial: bytes, chunk: bytes)
    requires Split(seen) == handed + [partial]
    ensures var split := Split(partial + chunk); Split(seen + chunk) == (handed + Front(split)) + [Last(split)]
  {
    var split := Split(partial + chunk);
    FrontLast(Split(seen), handed, partial);
    SplitMore(seen, chunk);
    FrontThenLast(handed, split);
  }

  lemma FrontThenLast(handed: seq<bytes>, split: seq<bytes>)
    requires split != []
    ensures handed + split == (handed + Front(split)) + [Last(split)]
  {
  }

  /** What a poll finds: no size, a size but no data, or a size and the file as it is when read. */
  datatype Poll = StatFails | ReadFails(size: nat) | Reads(size: nat, content: bytes)

  function Unread(content: bytes, offset: nat): bytes {
    if offset <= |content| then content[offset..] else []
  }

  /** What of the bytes read so far still counts: nothing, when the file has become shorter. */
  function Kept(seen: bytes, poll: Poll): bytes {
    if !poll.StatFails? && poll.size < |seen| then [] else seen
  }

  /** The bytes read since the last restart, after one more poll. */
  function SeenAfter(seen: bytes, poll: Poll): bytes {
    var kept := Kept(seen, poll);
    if poll.Reads? && poll.size != |kept| then kept + Unread(poll.content, |kept|) else kept
  }

  function SeenRun(polls: seq<Poll>): bytes {
    if polls == [] then [] else SeenAfter(SeenRun(Front(polls)), Last(polls))
  }

  /** A file that only grows: each poll sees at least what was there before, and reads at least what it saw. */
  ghost predicate AppendOnly(polls: seq<Poll>) {
    && (forall i :: 0 <= i < |polls| && polls[i].Reads? ==> polls[i].size <= |polls[i].content|)
    && (forall i, j :: 0 <= i < j < |polls| && polls[i].Reads? && !polls[j].StatFails? ==>
          |polls[i].content| <= polls[j].size)
    && (forall i, j :: 0 <= i < j < |polls| && polls[i].Reads? && polls[j].Reads? ==>
          polls[i].content <= polls[j].content)
  }

  /** Bytes of some poll's file, and no more than any later poll sees. */
  ghost predicate FromPolls(polls: seq<Poll>, seen: bytes) {
    seen == [] || exists i :: 0 <= i < |polls| && polls[i].Reads? && seen == polls[i].content
  }

  lemma FrontGrows(polls: seq<Poll>)
    requires AppendOnly(polls) && polls != []
    ensures AppendOnly(Front(polls))
  {
    assert forall i :: 0 <= i < |Front(polls)| ==> Front(polls)[i] == polls[i];
  }

  /** The bytes read are all in what a poll sees. */
  predicate SeesMore(seen: bytes, poll: Poll) {
    && (!poll.StatFails? ==> |seen| <= poll.size)
    && (poll.Reads? ==> seen <= poll.content && poll.size <= |poll.content|)
  }

  lemma LastSeesMore(polls: seq<Poll>, seen: bytes)
    requires AppendOnly(polls) && polls != [] && FromPolls(Front(polls), seen)
    ensures SeesMore(seen, Last(polls))
  {
    var last := |polls| - 1;
    if seen != [] {
      var i :| 0 <= i < last && Front(polls)[i].Reads? && seen == Front(polls)[i].content;
      assert polls[i].Reads? && seen == polls[i].content && polls[last] == Last(polls);
    }
  }

  lemma PollReadsOn(seen: bytes, poll: Poll)
    requires SeesMore(seen, poll)
    ensures Kept(seen, poll) == seen
    ensures SeenAfter(seen, poll) == seen || (poll.Reads? && SeenAfter(seen, poll) == poll.content)
    ensures poll.Reads? ==> SeenAfter(seen, poll) <= poll.content && |SeenAfter(seen, poll)| >= poll.size
  {
    if poll.Reads? {
      assert seen + Unread(poll.content, |seen|) == poll.content;
    }
  }

  lemma FromMorePolls(polls: seq<Poll>, seen: bytes, now: bytes)
    requires polls != [] && FromPolls(Front(polls), seen)
    requires now == seen || (Last(polls).Reads? && now == Last(polls).content)
    ensures FromPolls(polls, now)
  {
    if now == [] {
    } else if now == seen {
      var i :| 0 <= i < |Front(polls)| && Front(polls)[i].Reads? && seen == Front(polls)[i].content;
      assert polls[i] == Front(polls)[i];
    } else {
      assert polls[|polls| - 1] == Last(polls);
    }
  }

  /** On a growing file no poll restarts, and each successful one has read all it saw, in place. */
  lemma {:induction false} GrowingFileIsReadInOrder(polls: seq<Poll>)
    requires AppendOnly(polls)
    ensures FromPolls(polls, SeenRun(polls))
    ensures polls != [] ==> Kept(SeenRun(Front(polls)), Last(polls)) == SeenRun(Front(polls))
    ensures polls != [] && Last(polls).Reads? ==>
              SeenRun(polls) <= Last(polls).content && |SeenRun(polls)| >= Last(polls).size
  {
    if polls != [] {
      FrontGrows(polls);
      GrowingFileIsReadInOrder(Front(polls));
      var seen := SeenRun(Front(polls));
      LastSeesMore(polls, seen);
      PollReadsOn(seen, Last(polls));
      FromMorePolls(polls, seen, SeenAfter(seen, Last(polls)));
    }
  }

  class Reader {
    var offset: nat
    var partial: bytes
    ghost var seen: bytes
    ghost var handed: seq<bytes>

    /** Since the last restart: the lines handed on and the piece kept are one split of what was read. */
    ghost predicate Valid()
      reads this
    {
      offset == |seen| && Split(seen) == handed + [partial]
    }

    constructor ()
      ensures Valid() && seen == [] && handed == []
    {
      offset, partial, seen, handed := 0, [], [], [];
      new;
      assert Split(seen) == [[]];
    }

    /** One poll: `lines` are handed on. */
    method OnPoll(poll: Poll) returns (lines: seq<bytes>)
      requires Valid()
      modifies this
      ensures Valid()
      ensures seen == SeenAfter(old(seen), poll)
      ensures handed == (if Kept(old(seen), poll) == old(seen) then old(handed) else []) + lines
    {
      lines := [];
      if poll.StatFails? {
        return;
      }
      if poll.size < offset {
        offset, partial := 0, [];
        seen, handed := [], [];
        assert Split(seen) == [] + [[]];
      }
      if poll.size == offset || poll.ReadFails? {
        assert handed + [] == handed;
        return;
      }
      var chunk := Unread(poll.content, offset);
      var split := Split(partial + chunk);
      SplitGoesOn(seen, handed, partial, chunk);
      offset, partial, lines := offset + |chunk|, Last(split), Front(split);
      seen, handed := seen + chunk, handed + lines;
    }
  }
}
