/**
 Session keys (tls/protocol.go): a request and its response are tied together by a key
 kept in an expiring cache, with an index from connections to their live scopes.  Keys
 come from a supply that never repeats; expiry may take a session away at any moment
 without the index noticing.
 */
module Sessions {
  import opened Common

  datatype SslKey = SslKey(pidTgid: nat, uidGid: nat, sslPtr: nat, cgroup: nat)

  datatype Scope = Scope(conn: SslKey, streamId: nat)

  type Key = nat

  datatype Store = Store(sessions: map<Scope, Key>, index: map<SslKey, set<Scope>>, next: Key)

  // ---------- the store's invariant ----------

  ghost predicate Inv(s: Store) {
    && (forall scope :: scope in s.sessions ==> scope.conn in s.index && scope in s.index[scope.conn])
    && (forall conn, scope :: conn in s.index && scope in s.index[conn] ==> scope.conn == conn)
    && (forall conn :: conn in s.index ==> s.index[conn] != {})
    && (forall scope :: scope in s.sessions ==> s.sessions[scope] < s.next)
    && (forall a, b :: a in s.sessions && b in s.sessions && a != b ==> s.sessions[a] != s.sessions[b])
  }

  // ---------- what each operation does ----------

  function Indexed(index: map<SslKey, set<Scope>>, conn: SslKey): set<Scope> {
    if conn in index then index[conn] else {}
  }

  function SetIndexed(index: map<SslKey, set<Scope>>, conn: SslKey, scopes: set<Scope>): map<SslKey, set<Scope>> {
    if scopes == {} then index - {conn} else index[conn := scopes]
  }

  function KeyFor(s: Store, scope: Scope): Key {
    if scope in s.sessions then s.sessions[scope] else s.next
  }

  function Ensure(s: Store, scope: Scope): Store {
    if scope in s.sessions then s else
      Store(s.sessions[scope := s.next],
            SetIndexed(s.index, scope.conn, Indexed(s.index, scope.conn) + {scope}),
            s.next + 1)
  }

  function Delete(s: Store, scope: Scope): Store {
    Store(s.sessions - {scope},
          if scope.conn in s.index then SetIndexed(s.index, scope.conn, s.index[scope.conn] - {scope}) else s.index,
          s.next)
  }

  /** Dropping a connection releases all of its sessions and no others. */
  function DropAll(s: Store, conn: SslKey): Store {
    Store(map scope | scope in s.sessions && scope.conn != conn :: s.sessions[scope], s.index - {conn}, s.next)
  }

  lemma EnsureKeepsInv(s: Store, scope: Scope)
    requires Inv(s)
    ensures Inv(Ensure(s, scope))
  {
  }

  lemma DeleteKeepsInv(s: Store, scope: Scope)
    requires Inv(s)
    ensures Inv(Delete(s, scope))
  {
    var s' := Delete(s, scope);
    forall other | other in s'.sessions
      ensures other.conn in s'.index && other in s'.index[other.conn]
    {
      assert other in s.index[other.conn];
    }
  }

  lemma DropKeepsInv(s: Store, conn: SslKey)
    requires Inv(s)
    ensures Inv(DropAll(s, conn))
  {
  }

  function LiveOf(s: Store, conn: SslKey): set<Scope> {
    set scope | scope in s.sessions && scope.conn == conn
  }

  /** Part-way through dropping a connection: `todo` of its scopes are still there. */
  function Dropping(s: Store, conn: SslKey, todo: set<Scope>): Store {
    Store(s.sessions - (LiveOf(s, conn) - todo), SetIndexed(s.index, conn, todo), s.next)
  }

  lemma DropOne(s: Store, conn: SslKey, todo: set<Scope>, scope: Scope)
    requires scope in todo && todo <= LiveOf(s, conn)
    ensures Delete(Dropping(s, conn, todo), scope) == Dropping(s, conn, todo - {scope})
  {
    var rest := todo - {scope};
    assert scope.conn == conn;
    assert s.sessions - (LiveOf(s, conn) - todo) - {scope} == s.sessions - (LiveOf(s, conn) - rest);
    assert s.index[conn := todo][conn] - {scope} == rest;
    assert SetIndexed(s.index[conn := todo], conn, rest) == SetIndexed(s.index, conn, rest);
  }

  lemma DroppingEnds(s: Store, conn: SslKey)
    ensures Dropping(s, conn, {}) == DropAll(s, conn)
  {
    assert s.sessions - (LiveOf(s, conn) - {}) == DropAll(s, conn).sessions;
  }

  /** The entries that are live; the walk removes the others from its copy. */
  method Prune(scopes: set<Scope>, sessions: map<Scope, Key>) returns (live: set<Scope>, kept: set<Scope>)
    ensures live == kept && forall x :: x in live <==> x in scopes && x in sessions
  {
    live, kept := {}, scopes;
    var todo := scopes;
    while todo != {}
      invariant todo <= scopes
      invariant forall x :: x in live <==> x in scopes && x !in todo && x in sessions
      invariant forall x :: x in kept <==> x in todo || x in live
      decreases |todo|
    {
      var scope :| scope in todo;
      todo := todo - {scope};
      if scope !in sessions {
        kept := kept - {scope};
      } else {
        live := live + {scope};
      }
    }
  }

  // ---------- the operations as the program has them ----------

  class SessionStore {
    var sessions: map<Scope, Key>
    var index: map<SslKey, set<Scope>>
    var next: Key

    ghost function View(): Store
      reads this
    {
      Store(sessions, index, next)
    }

    constructor ()
      ensures View() == Store(map[], map[], 0) && Inv(View())
    {
      sessions, index, next := map[], map[], 0;
    }

    method AddSessionScope(scope: Scope)
      modifies this`index
      ensures index == SetIndexed(old(index), scope.conn, Indexed(old(index), scope.conn) + {scope})
    {
      var scopes := {};
      if scope.conn in index {
        scopes := index[scope.conn];
      }
      index := index[scope.conn := scopes + {scope}];
    }

    method RemoveSessionScope(scope: Scope)
      modifies this`index
      ensures Store(sessions - {scope}, index, next) == Delete(old(View()), scope)
    {
      if scope.conn !in index {
        return;
      }
      var scopes := index[scope.conn] - {scope};
      index := index[scope.conn := scopes];
      if scopes == {} {
        index := index - {scope.conn};
        assert index == old(index) - {scope.conn};
      }
    }

    method EnsureSessionKey(scope: Scope) returns (key: Key)
      modifies this
      ensures View() == Ensure(old(View()), scope)
      ensures key == KeyFor(old(View()), scope)
    {
      if scope in sessions {
        return sessions[scope];
      }
      key := next;
      next := next + 1;
      sessions := sessions[scope := key];
      AddSessionScope(scope);
    }

    method DeleteSessionKey(scope: Scope)
      modifies this
      ensures View() == Delete(old(View()), scope)
    {
      sessions := sessions - {scope};
      assert sessions - {scope} == sessions;
      RemoveSessionScope(scope);
    }

    /** The live scopes of a connection; stale index entries found on the way are removed. */
    method SessionScopesForConn(conn: SslKey) returns (live: set<Scope>)
      requires Inv(View())
      modifies this`index
      ensures live == LiveOf(old(View()), conn)
      ensures index == if conn in old(index) then SetIndexed(old(index), conn, live) else old(index)
    {
      live := {};
      if conn !in index {
        return;
      }
      var scopes;
      live, scopes := Prune(index[conn], sessions);
      index := index[conn := scopes];
      if scopes == {} {
        index := index - {conn};
        assert index == old(index) - {conn};
      }
    }

    method DeleteConnectionSessions(conn: SslKey)
      requires Inv(View())
      modifies this
      ensures View() == DropAll(old(View()), conn) && Inv(View())
    {
      ghost var before := View();
      var todo := SessionScopesForConn(conn);
      assert index == SetIndexed(before.index, conn, todo) by {
        if conn !in before.index {
          assert todo == {} && before.index - {conn} == before.index;
        }
      }
      assert sessions == sessions - (LiveOf(before, conn) - todo);
      while todo != {}
        invariant todo <= LiveOf(before, conn)
        invariant View() == Dropping(before, conn, todo)
        decreases |todo|
      {
        var scope :| scope in todo;
        DropOne(before, conn, todo, scope);
        DeleteSessionKey(scope);
        todo := todo - {scope};
      }
      DroppingEnds(before, conn);
      DropKeepsInv(before, conn);
    }
  }

  // ---------- whole runs ----------

  /** A request or response record, a lone release, a dropped connection, or an expiry. */
  datatype Event =
    | Request(scope: Scope)
    | Response(scope: Scope)
    | Release(scope: Scope)
    | Drop(conn: SslKey)
    | Expire(scope: Scope)

  /** A response takes its key and then releases the scope; expiry leaves the index as it was. */
  function Apply(s: Store, e: Event): Store {
    match e
    case Request(scope) => Ensure(s, scope)
    case Response(scope) => Delete(Ensure(s, scope), scope)
    case Release(scope) => Delete(s, scope)
    case Drop(conn) => DropAll(s, conn)
    case Expire(scope) => s.(sessions := s.sessions - {scope})
  }

  /** The store before event number `n`. */
  function StoreAt(trace: seq<Event>, n: nat): Store
    requires n <= |trace|
  {
    if n == 0 then Store(map[], map[], 0) else Apply(StoreAt(trace, n - 1), trace[n - 1])
  }

  predicate IsRecord(e: Event) {
    e.Request? || e.Response?
  }

  /** The key that record number `i` carries. */
  function KeyAt(trace: seq<Event>, i: nat): Key
    requires i < |trace| && IsRecord(trace[i])
  {
    KeyFor(StoreAt(trace, i), trace[i].scope)
  }

  predicate Releases(e: Event, scope: Scope) {
    match e
    case Request(_) => false
    case Drop(conn) => scope.conn == conn
    case _ => e.scope == scope
  }

  /** Some event from `i` up to, but not including, `j` releases the scope. */
  ghost predicate ReleasedBetween(trace: seq<Event>, i: nat, j: nat, scope: Scope)
    requires j <= |trace|
  {
    exists k :: i <= k < j && Releases(trace[k], scope)
  }

  /** Every reachable store indexes each live session under its own connection. */
  lemma {:induction false} RunsKeepInv(trace: seq<Event>, n: nat)
    requires n <= |trace|
    ensures Inv(StoreAt(trace, n))
  {
    if n > 0 {
      RunsKeepInv(trace, n - 1);
      var s := StoreAt(trace, n - 1);
      match trace[n - 1]
      case Request(scope) => EnsureKeepsInv(s, scope);
      case Response(scope) => EnsureKeepsInv(s, scope); DeleteKeepsInv(Ensure(s, scope), scope);
      case Release(scope) => DeleteKeepsInv(s, scope);
      case Drop(conn) => DropKeepsInv(s, conn);
      case Expire(scope) =>
    }
  }

  /** How one event moves one scope's session. */
  lemma ApplyOn(s: Store, e: Event, scope: Scope)
    requires Inv(s)
    ensures var s' := Apply(s, e);
            && s'.next >= s.next
            && (scope in s'.sessions ==> !Releases(e, scope))
            && (scope in s'.sessions ==> s'.sessions[scope] == KeyFor(s, scope))
            && (scope in s.sessions && !Releases(e, scope) ==> scope in s'.sessions)
            && (scope in s'.sessions && scope !in s.sessions ==> e == Request(scope))
  {
  }

  /**
   From record `i` on, its key is held by its own scope as long as nothing released it,
   and by no scope at any other time.
   */
  lemma {:induction false} KeyHeld(trace: seq<Event>, i: nat, j: nat, scope: Scope)
    requires i < j <= |trace| && IsRecord(trace[i])
    ensures var s, key := StoreAt(trace, j), KeyAt(trace, i);
            && key < s.next
            && (scope in s.sessions && s.sessions[scope] == key
                <==> scope == trace[i].scope && !ReleasedBetween(trace, i, j, scope))
    decreases j
  {
    var s := StoreAt(trace, j - 1);
    RunsKeepInv(trace, j - 1);
    ApplyOn(s, trace[j - 1], scope);
    if j == i + 1 {
      ApplyOn(s, trace[i], trace[i].scope);
    } else {
      KeyHeld(trace, i, j - 1, scope);
      ReleasedSnoc(trace, i, j, scope);
    }
  }

  lemma ReleasedSnoc(trace: seq<Event>, i: nat, j: nat, scope: Scope)
    requires i < j <= |trace|
    ensures ReleasedBetween(trace, i, j, scope) <==>
            ReleasedBetween(trace, i, j - 1, scope) || Releases(trace[j - 1], scope)
  {
  }

  /** Two records carry the same key exactly when they share a scope that was not released in between. */
  lemma SameKeyIff(trace: seq<Event>, i: nat, j: nat)
    requires i < j < |trace| && IsRecord(trace[i]) && IsRecord(trace[j])
    ensures KeyAt(trace, i) == KeyAt(trace, j) <==>
            trace[i].scope == trace[j].scope && !ReleasedBetween(trace, i, j, trace[i].scope)
  {
    KeyHeld(trace, i, j, trace[j].scope);
  }
}
