/**
 * The session store: one WinRM session per Telegram user, kept in a
 * dictionary keyed by user id. A session expires lazily, when it is looked up
 * after more than `SessionTtl` idle seconds; every successful lookup renews it.
 *
 * The clock is one integer `now` per operation, in seconds.
 */
module Sessions {
  import opened Text
  import opened Utils

  /** Default idle time, in seconds, after which a session is dropped. */
  const SessionTtl: int := 900

  /** Default WinRM port. */
  const WinrmPort: int := 5985

  /** The WinRM client object a session may hold; only its identity matters here. */
  datatype Client = Client(id: nat)

  datatype Session = Session(
    userId: int,
    host: string,
    username: string,
    password: string,
    port: int,
    createdAt: int,
    lastUsed: int,
    isConnected: bool,
    winrmClient: Option<Client>)

  type Store = map<int, Session>

  /** More than `SessionTtl` seconds have passed since the session was last used. */
  predicate Expired(s: Session, now: int) {
    now - s.lastUsed > SessionTtl
  }

  // ---------------------------------------------------------------------
  // Building a session

  /** `s.split(c, 1)` for a text that holds `c`: what lies before its first
      occurrence, and everything after it. */
  function SplitOnce(s: string, c: char): (r: (string, string))
    requires c in s
    ensures s == r.0 + [c] + r.1 && c !in r.0
    decreases |s|
  {
    if s[0] == c then
      assert s == [] + [c] + s[1..];
      ([], s[1..])
    else
      var rest := SplitOnce(s[1..], c);
      assert s == [s[0]] + s[1..];
      ([s[0]] + rest.0, rest.1)
  }

  /** Python's `int(s)` on ASCII text: surrounding whitespace, an optional
      sign and a non-empty run of digits; anything else raises `ValueError`,
      which is `None` here. */
  function ParseInt(s: string): Option<int> {
    var t := Strip(s);
    if t != [] && (t[0] == '+' || t[0] == '-') && IsDigits(t[1..]) then
      var v: int := DigitsValue(t[1..]);
      Some(if t[0] == '-' then -v else v)
    else if IsDigits(t) then Some(DigitsValue(t))
    else None
  }

  /** `int` reads back what `str` writes. */
  lemma ParseIntRoundTrip(n: int)
    ensures ParseInt(IntToString(n)) == Some(n)
  {
    var s := IntToString(n);
    if n >= 0 {
      assert IsDigit(s[0]) && IsDigit(s[|s| - 1]);
      StripNoop(s);
    } else {
      assert s[|s| - 1] == s[1..][|s| - 2];
      StripNoop(s);
    }
  }

  /** A string of digits is read as its decimal value. */
  lemma ParseIntDigits(d: string)
    requires IsDigits(d)
    ensures ParseInt(d) == Some(DigitsValue(d))
  {
    StripNoop(d);
  }

  /** A text with a ':' in it is not a number. */
  lemma ParseIntColon(s: string)
    ensures ':' in s ==> ParseInt(s) == None
  {
    StripKeepsIn(s, ':');
    var t := Strip(s);
    if ':' in t {
      var k :| 0 <= k < |t| && t[k] == ':';
      assert k > 0 ==> t[1..][k - 1] == ':';
    }
  }

  /** The session `create_session` builds: with no port given, a host with a
      ':' is split at its first ':' and the rest is read with `int()`, which
      may raise (`None`); a host without one gets the default port. An
      explicit port leaves the host as it is. */
  function NewSession(userId: int, host: string, username: string, password: string,
                      port: Option<int>, now: int): (r: Option<Session>)
    ensures r.Some? ==>
      (r.value.userId == userId && r.value.username == username
       && r.value.password == password && r.value.createdAt == now && r.value.lastUsed == now
       && !r.value.isConnected && r.value.winrmClient.None?)
    ensures port.Some? || ':' !in host ==> r.Some?
  {
    if port.Some? then
      Some(Session(userId, host, username, password, port.value, now, now, false, None))
    else if ':' in host then
      var (h, rest) := SplitOnce(host, ':');
      match ParseInt(rest)
      case None => None
      case Some(p) => Some(Session(userId, h, username, password, p, now, now, false, None))
    else
      Some(Session(userId, host, username, password, WinrmPort, now, now, false, None))
  }

  /** An explicit port is stored as given, with the host unchanged even when
      it holds a ':'. */
  lemma NewSessionExplicitPort(userId: int, host: string, username: string, password: string, p: int, now: int)
    ensures var r := NewSession(userId, host, username, password, Some(p), now);
      r.Some? && r.value.host == host && r.value.port == p
  {
  }

  /** Without a port and without a ':', the default port is used. */
  lemma NewSessionDefaultPort(userId: int, host: string, username: string, password: string, now: int)
    requires ':' !in host
    ensures var r := NewSession(userId, host, username, password, None, now);
      r.Some? && r.value.host == host && r.value.port == WinrmPort
  {
  }

  /** A host written as `h:p` is taken apart into `h` and `p`. */
  lemma NewSessionSplitsHost(userId: int, h: string, p: int, username: string, password: string, now: int)
    requires ':' !in h
    ensures var r := NewSession(userId, h + ":" + IntToString(p), username, password, None, now);
      r.Some? && r.value.host == h && r.value.port == p
  {
    var host := h + ":" + IntToString(p);
    assert host[|h|] == ':';
    var (a, rest) := SplitOnce(host, ':');
    assert host[|a|] == ':';
    assert |a| == |h|;
    assert a == host[..|h|] == h;
    assert rest == host[|h| + 1..] == IntToString(p);
    ParseIntRoundTrip(p);
  }

  /** A host with a second ':' makes `int()` raise when no port is given. */
  lemma NewSessionTwoColons(userId: int, host: string, username: string, password: string, now: int)
    requires Count(host, ':') >= 2
    ensures NewSession(userId, host, username, password, None, now) == None
  {
    CountIn(host, ':');
    var (a, rest) := SplitOnce(host, ':');
    CountAppend(a + [':'], rest, ':');
    CountAppend(a, [':'], ':');
    CountIn(a, ':');
    CountIn(rest, ':');
    ParseIntColon(rest);
  }

  // ---------------------------------------------------------------------
  // The store's operations as functions

  /** What `get_session` returns: nothing for an absent or expired user, and
      otherwise the session renewed to `now`. */
  function Lookup(store: Store, userId: int, now: int): Option<Session> {
    if userId in store && !Expired(store[userId], now) then Some(store[userId].(lastUsed := now))
    else None
  }

  /** The store after `get_session`: an expired entry is dropped, a live one renewed. */
  function AfterGet(store: Store, userId: int, now: int): Store {
    if userId !in store then store
    else if Expired(store[userId], now) then store - {userId}
    else store[userId := store[userId].(lastUsed := now)]
  }

  /** The store after `update_session_connection`. */
  function AfterUpdate(store: Store, userId: int, connected: bool, client: Option<Client>, now: int): Store {
    var s := AfterGet(store, userId, now);
    match Lookup(store, userId, now)
    case None => s
    case Some(v) => s[userId := v.(isConnected := connected, winrmClient := client)]
  }

  /** The users whose sessions have expired at `now`. */
  function ExpiredIds(store: Store, now: int): set<int> {
    set k | k in store && Expired(store[k], now)
  }

  /** The store after `cleanup_expired_sessions`. */
  function Sweep(store: Store, now: int): Store {
    store - ExpiredIds(store, now)
  }

  // ---------------------------------------------------------------------
  // Invariants

  /** Every session is filed under its own user id. */
  predicate KeysMatch(store: Store) {
    forall k :: k in store ==> store[k].userId == k
  }

  /** No session was last used before it was created. */
  predicate Ordered(store: Store) {
    forall k :: k in store ==> store[k].createdAt <= store[k].lastUsed
  }

  /** The clock has not gone back: `now` is no earlier than any last use. */
  predicate NotBefore(store: Store, now: int) {
    forall k :: k in store ==> store[k].lastUsed <= now
  }

  /** The clock reads no earlier than the creation of the user's session. */
  predicate CreatedBy(store: Store, userId: int, now: int) {
    userId in store ==> store[userId].createdAt <= now
  }

  predicate Consistent(store: Store) {
    KeysMatch(store) && Ordered(store)
  }

  // ---------------------------------------------------------------------
  // Properties of the operations

  /** `get_session`: an absent user gets nothing and the store is unchanged;
      an expired one gets nothing and is dropped; a live one, including one
      idle for exactly `SessionTtl` seconds, is renewed and nothing else
      changes. Other users are never touched. */
  lemma GetCases(store: Store, userId: int, now: int)
    ensures userId !in store ==> Lookup(store, userId, now) == None && AfterGet(store, userId, now) == store
    ensures userId in store && now - store[userId].lastUsed > SessionTtl ==>
      Lookup(store, userId, now) == None && AfterGet(store, userId, now) == store - {userId}
    ensures userId in store && now - store[userId].lastUsed <= SessionTtl ==>
      Lookup(store, userId, now) == Some(store[userId].(lastUsed := now))
      && AfterGet(store, userId, now) == store[userId := store[userId].(lastUsed := now)]
    ensures forall k :: k != userId ==> (k in AfterGet(store, userId, now) <==> k in store)
    ensures forall k :: k != userId && k in store ==> AfterGet(store, userId, now)[k] == store[k]
  {
  }

  /** The user is in the store after `get_session` exactly when a session was returned. */
  lemma GetKeepsExactlyLive(store: Store, userId: int, now: int)
    ensures userId in AfterGet(store, userId, now) <==> Lookup(store, userId, now).Some?
    ensures Lookup(store, userId, now).Some? ==> AfterGet(store, userId, now)[userId] == Lookup(store, userId, now).value
  {
  }

  /** A second `get_session` at the same moment returns the same session and
      changes nothing more. */
  lemma GetTwice(store: Store, userId: int, now: int)
    ensures Lookup(AfterGet(store, userId, now), userId, now) == Lookup(store, userId, now)
    ensures AfterGet(AfterGet(store, userId, now), userId, now) == AfterGet(store, userId, now)
  {
    var s := AfterGet(store, userId, now);
    if userId in store && !Expired(store[userId], now) {
      assert s[userId].lastUsed == now;
      assert s[userId := s[userId].(lastUsed := now)] == s;
    }
  }

  /** `update_session_connection` succeeds exactly when `get_session` finds a
      live session; the user's session is then renewed, carries the new flag
      and client, and keeps everything else. */
  lemma UpdateCases(store: Store, userId: int, connected: bool, client: Option<Client>, now: int)
    ensures Lookup(store, userId, now).None? ==> AfterUpdate(store, userId, connected, client, now) == AfterGet(store, userId, now)
    ensures Lookup(store, userId, now).Some? ==>
      var s := store[userId];
      AfterUpdate(store, userId, connected, client, now)
        == store[userId := s.(lastUsed := now, isConnected := connected, winrmClient := client)]
  {
  }

  /** The sweep removes exactly the expired sessions and keeps the others as they were. */
  lemma SweepExact(store: Store, now: int)
    ensures forall k :: k in Sweep(store, now) <==> k in store && now - store[k].lastUsed <= SessionTtl
    ensures forall k :: k in Sweep(store, now) ==> Sweep(store, now)[k] == store[k]
  {
  }

  /** The sweep's count and the sessions left add up to the sessions there were. */
  lemma SweepCount(store: Store, now: int)
    ensures |ExpiredIds(store, now)| + |Sweep(store, now).Keys| == |store.Keys|
  {
    var e := ExpiredIds(store, now);
    var kept := Sweep(store, now).Keys;
    assert kept == store.Keys - e;
    assert store.Keys == kept + e;
    assert kept * e == {};
  }

  /** Sweeping twice at the same moment removes nothing more. */
  lemma SweepIdempotent(store: Store, now: int)
    ensures Sweep(Sweep(store, now), now) == Sweep(store, now)
    ensures ExpiredIds(Sweep(store, now), now) == {}
  {
  }

  /** Sweeping changes nothing that `get_session` would return at the same moment. */
  lemma SweepThenLookup(store: Store, userId: int, now: int)
    ensures Lookup(Sweep(store, now), userId, now) == Lookup(store, userId, now)
  {
  }

  /** Creating a session keeps the store consistent. */
  lemma CreateKeeps(store: Store, s: Session)
    requires Consistent(store) && s.createdAt == s.lastUsed
    ensures Consistent(store[s.userId := s])
  {
  }

  /** Looking a session up keeps the store consistent, provided the clock
      has not gone back. */
  lemma GetKeeps(store: Store, userId: int, now: int)
    requires Consistent(store) && NotBefore(store, now)
    ensures Consistent(AfterGet(store, userId, now)) && NotBefore(AfterGet(store, userId, now), now)
  {
  }

  lemma UpdateKeeps(store: Store, userId: int, connected: bool, client: Option<Client>, now: int)
    requires Consistent(store) && NotBefore(store, now)
    ensures Consistent(AfterUpdate(store, userId, connected, client, now))
  {
    GetKeeps(store, userId, now);
  }

  lemma SweepKeeps(store: Store, now: int)
    requires Consistent(store)
    ensures Consistent(Sweep(store, now))
  {
  }

  // ---------------------------------------------------------------------
  // The store

  class SessionManager {
    var sessions: Store

    /** Every session is filed under its own user and was not used before it
        was created. */
    predicate Valid()
      reads this
    {
      Consistent(sessions)
    }

    constructor ()
      ensures sessions == map[] && Valid()
    {
      sessions := map[];
    }

    /** `create_session`: build the session and file it under the user,
        replacing any earlier one; when `int()` raises, nothing is stored. */
    method CreateSession(userId: int, host: string, username: string, password: string,
                         port: Option<int>, now: int) returns (r: Option<Session>)
      requires Valid()
      modifies this
      ensures r == NewSession(userId, host, username, password, port, now)
      ensures sessions == if r.Some? then old(sessions)[userId := r.value] else old(sessions)
      ensures Valid()
    {
      r := NewSession(userId, host, username, password, port, now);
      if r.Some? {
        sessions := sessions[userId := r.value];
      }
    }

    /** `get_session`: drop the session if it has expired, renew it otherwise. */
    method GetSession(userId: int, now: int) returns (r: Option<Session>)
      requires Valid()
      modifies this
      ensures r == Lookup(old(sessions), userId, now)
      ensures sessions == AfterGet(old(sessions), userId, now)
      ensures CreatedBy(old(sessions), userId, now) ==> Valid()
    {
      if userId in sessions {
        var s := sessions[userId];
        if now - s.lastUsed > SessionTtl {
          var removed := DeleteSession(userId);
          return None;
        }
        r := Some(s.(lastUsed := now));
        sessions := sessions[userId := r.value];
      } else {
        r := None;
      }
    }

    /** `delete_session`: whether the user had a session; afterwards it has none. */
    method DeleteSession(userId: int) returns (removed: bool)
      requires Valid()
      modifies this
      ensures removed == (userId in old(sessions))
      ensures sessions == old(sessions) - {userId}
      ensures Valid()
    {
      removed := userId in sessions;
      if removed {
        sessions := sessions - {userId};
      }
    }

    /** `update_session_connection`: look the session up (which may drop or
        renew it), then set its connection flag and client. */
    method UpdateSessionConnection(userId: int, isConnected: bool, client: Option<Client>, now: int)
      returns (ok: bool)
      requires Valid()
      modifies this
      ensures ok == Lookup(old(sessions), userId, now).Some?
      ensures sessions == AfterUpdate(old(sessions), userId, isConnected, client, now)
      ensures CreatedBy(old(sessions), userId, now) ==> Valid()
    {
      var s := GetSession(userId, now);
      ok := s.Some?;
      if ok {
        sessions := sessions[userId := s.value.(isConnected := isConnected, winrmClient := client)];
      }
    }

    /** `cleanup_expired_sessions`: collect the expired users first, then
        delete them one by one; the count is how many were collected. */
    method CleanupExpiredSessions(now: int) returns (count: nat)
      requires Valid()
      modifies this
      ensures sessions == Sweep(old(sessions), now)
      ensures count == |ExpiredIds(old(sessions), now)|
      ensures Valid()
    {
      var expired := ExpiredIds(sessions, now);
      var todo := expired;
      var done := false;
      while !done
        invariant todo <= expired
        invariant sessions == old(sessions) - (expired - todo)
        invariant done ==> todo == {}
        invariant Valid()
        decreases |todo|, !done
      {
        if victim :| victim in todo {
          var removed := DeleteSession(victim);
          todo := todo - {victim};
        } else {
          assert forall x :: x !in todo;
          assert todo == {};
          done := true;
        }
      }
      count := |expired|;
    }
  }
}
