/**
 * What the bot's slash commands decide: `/connect` checks its arguments,
 * tests the connection and files a connected session; `/run` looks the
 * session up, checks its arguments and routes the text to PowerShell or
 * CMD; `/status` reports the session and its remaining time; `/disconnect`
 * deletes it. Replies are reduced to what they carry.
 *
 * The connection test is a parameter, and so is the clock.
 */
module Commands {
  import opened Text
  import opened HostShape
  import opened Utils
  import opened Sessions
  import Extractor

  // ---------------------------------------------------------------------
  // /run: where the command text goes

  datatype Route = PowerShell(script: string) | Cmd(command: string)

  const PowerShellWord: string := "powershell"

  /** Python's `s[k:]`, which is empty when `s` is shorter than `k`. */
  function DropPrefix(s: string, k: nat): (r: string)
    ensures |s| >= k ==> s == s[..k] + r
  {
    if |s| >= k then s[k..] else []
  }

  /** Text whose lower case starts with "powershell" goes to PowerShell with
      those ten characters dropped and the rest stripped; other text goes to
      CMD unchanged. */
  function ClassifyCommand(command: string): (r: Route)
    ensures r.PowerShell? <==> StartsWith(Lower(command), PowerShellWord)
    ensures r.Cmd? ==> r.command == command
  {
    if StartsWith(Lower(command), PowerShellWord) then PowerShell(Strip(DropPrefix(command, 10)))
    else Cmd(command)
  }

  /** A stripped text after "powershell " is exactly the script that runs. */
  lemma ClassifyPowerShell(script: string)
    requires script == [] || (!IsSpace(script[0]) && !IsSpace(script[|script| - 1]))
    ensures ClassifyCommand(PowerShellWord + " " + script) == PowerShell(script)
  {
    var c := PowerShellWord + " " + script;
    assert c[..10] == PowerShellWord;
    LowerKeepsWord(c);
    assert DropPrefix(c, 10) == [' '] + script;
    StripSpaceBefore(script);
  }

  /** The word is already lower case, so lower-casing keeps it at the head. */
  lemma LowerKeepsWord(c: string)
    requires |c| >= 10 && c[..10] == PowerShellWord
    ensures StartsWith(Lower(c), PowerShellWord)
  {
    WordIsLower();
    assert StartsWith(c, PowerShellWord);
    LowerPrefix(c, PowerShellWord);
  }

  lemma WordIsLower()
    ensures Lower(PowerShellWord) == PowerShellWord
  {
    var w := PowerShellWord;
    assert w[0] == 'p' && w[1] == 'o' && w[2] == 'w' && w[3] == 'e' && w[4] == 'r';
    assert w[5] == 's' && w[6] == 'h' && w[7] == 'e' && w[8] == 'l' && w[9] == 'l';
    forall i | 0 <= i < |w|
      ensures Lower(w)[i] == w[i]
    {
      assert i == 0 || i == 1 || i == 2 || i == 3 || i == 4 || i == 5 || i == 6 || i == 7 || i == 8 || i == 9;
    }
  }

  lemma StripSpaceBefore(script: string)
    requires script == [] || (!IsSpace(script[0]) && !IsSpace(script[|script| - 1]))
    ensures Strip([' '] + script) == script
  {
    var t := [' '] + script;
    assert t[1..] == script;
    assert SkipSpace(t, 1) == 1;
    assert BackSpace(t, 1, |t|) == |t|;
  }

  /** The test is on the lower case, so any capitalisation of the word counts. */
  lemma ClassifyIgnoresCase(command: string)
    requires |command| >= 10 && Lower(command[..10]) == PowerShellWord
    ensures ClassifyCommand(command).PowerShell?
  {
    assert forall i :: 0 <= i < 10 ==> Lower(command)[i] == Lower(command[..10])[i];
  }

  /** No word boundary is needed after "powershell". */
  lemma ClassifyNoBoundary(command: string)
    requires command == "powershellGet-Process"
    ensures ClassifyCommand(command) == PowerShell("Get-Process")
  {
    assert command == PowerShellWord + "Get-Process";
    assert command[..10] == PowerShellWord;
    LowerKeepsWord(command);
    var rest := DropPrefix(command, 10);
    assert rest == "Get-Process";
    StripNoop(rest);
  }

  // ---------------------------------------------------------------------
  // /connect: the optional port

  /** `int(args[3])` when there is a fourth argument made of digits, and no
      port otherwise; later arguments are ignored. */
  function ParsePort(args: seq<string>): Option<int> {
    if |args| > 3 && IsDigits(args[3]) then ParseInt(args[3]) else None
  }

  /** After the digit test, `int()` cannot raise: the port is the digits' value. */
  lemma ParsePortDigits(args: seq<string>)
    ensures ParsePort(args).Some? <==> |args| > 3 && IsDigits(args[3])
    ensures ParsePort(args).Some? ==> ParsePort(args) == Some(DigitsValue(args[3]))
  {
    if |args| > 3 && IsDigits(args[3]) {
      ParseIntDigits(args[3]);
    }
  }

  /** A port written out as a number is read back. */
  lemma ParsePortRoundTrip(args: seq<string>, p: nat)
    requires |args| > 3 && args[3] == NatToString(p)
    ensures ParsePort(args) == Some(p)
  {
    ParseIntDigits(args[3]);
  }

  /** Arguments after the fourth do not change the port. */
  lemma ParsePortIgnoresRest(args: seq<string>, more: seq<string>)
    requires |args| >= 4
    ensures ParsePort(args + more) == ParsePort(args)
  {
    assert (args + more)[3] == args[3];
  }

  /** `port or config.WINRM_PORT`: no port, or port 0, shows the default. */
  function ShownPort(port: Option<int>): (r: int)
    ensures port.Some? && port.value != 0 ==> r == port.value
    ensures port.None? || port.value == 0 ==> r == WinrmPort
  {
    if port.Some? && port.value != 0 then port.value else WinrmPort
  }

  // ---------------------------------------------------------------------
  // What validation guarantees downstream

  /** A host that `validate_host` returns can be filed without a port:
      splitting it at a ':' never makes `int()` raise, and the host kept is
      the dotted quad. */
  lemma ValidatedHostSession(x: string, userId: int, username: string, password: string, now: int)
    requires ValidateHost(x).Some?
    ensures var r := NewSession(userId, ValidateHost(x).value, username, password, None, now);
      r.Some? && DollarQuad(r.value.host)
  {
    var h := ValidateHost(x).value;
    ValidateHostMeaning(x);
    assert h == Strip(x) && HostForm(h);
    QuadDigitsAndDots(h);
    if ':' in h {
      var i :| 0 <= i < |h| && PortAt(h, i);
      var (a, rest) := SplitOnce(h, ':');
      assert h[|a|] == ':';
      assert |a| == i;
      assert a == h[..i] && rest == h[i + 1..];
      ParseIntDigits(rest);
    }
  }

  /** A host of the shape is accepted unchanged and can be filed without a port. */
  lemma ShapedHostValid(h: string, userId: int, username: string, password: string, now: int)
    requires IsHostShape(h)
    ensures ValidateHost(h) == Some(h) && NewSession(userId, h, username, password, None, now).Some?
  {
    var e := HostShapeParts(h);
    StripNoop(h);
    HostShapeAccepted(h);
    ValidatedHostSession(h, userId, username, password, now);
  }

  /** Every host the extractor returns is accepted unchanged by
      `validate_host`, so its "invalid host" reply is never reached for
      extracted credentials, and filing them without a port never raises. */
  lemma ExtractedHostValid(text: string, userId: int, now: int)
    requires Extractor.Extract(text).Some?
    ensures var c := Extractor.Extract(text).value;
      ValidateHost(c.host) == Some(c.host)
      && NewSession(userId, c.host, c.username, c.password, None, now).Some?
  {
    var c := Extractor.Extract(text).value;
    Extractor.ExtractShape(text);
    ShapedHostValid(c.host, userId, c.username, c.password, now);
  }

  // ---------------------------------------------------------------------
  // The handlers as steps over the store

  /** The outcome of `test_connection(host, username, password, port)`. */
  type Tester = (string, string, string, Option<int>) -> (bool, string)

  datatype ConnectReply =
    | ConnectUsage
    | InvalidHost
    | ConnectFailed(message: string)
    | Connected(host: string, shownPort: int, username: string, message: string)

  /** `/connect host username password [port]`: the reply and the new store. */
  function ConnectStep(store: Store, userId: int, args: seq<string>, test: Tester, now: int): (ConnectReply, Store) {
    if |args| < 3 then (ConnectUsage, store)
    else match ValidateHost(args[0])
      case None => (InvalidHost, store)
      case Some(host) =>
        var port := ParsePort(args);
        var outcome := test(host, args[1], args[2], port);
        if !outcome.0 then (ConnectFailed(outcome.1), store)
        else
          ValidatedHostSession(args[0], userId, args[1], args[2], now);
          var s := NewSession(userId, host, args[1], args[2], port, now).value;
          (Connected(host, ShownPort(port), args[1], outcome.1),
           AfterUpdate(store[userId := s], userId, true, None, now))
  }

  /** `/connect` without three arguments, or with a host `validate_host`
      refuses, replies with an error, leaves the store alone and does not
      test a connection: the outcome is the same whatever the test would say. */
  lemma ConnectGuards(store: Store, userId: int, args: seq<string>, test: Tester, other: Tester, now: int)
    requires |args| < 3 || ValidateHost(args[0]).None?
    ensures ConnectStep(store, userId, args, test, now) == ConnectStep(store, userId, args, other, now)
    ensures ConnectStep(store, userId, args, test, now).1 == store
    ensures ConnectStep(store, userId, args, test, now).0 == if |args| < 3 then ConnectUsage else InvalidHost
  {
  }

  /** A failed test replies with its message and leaves the user's earlier session as it was. */
  lemma ConnectFailureKeeps(store: Store, userId: int, args: seq<string>, test: Tester, now: int)
    requires |args| >= 3 && ValidateHost(args[0]).Some?
    requires !test(ValidateHost(args[0]).value, args[1], args[2], ParsePort(args)).0
    ensures ConnectStep(store, userId, args, test, now)
      == (ConnectFailed(test(ValidateHost(args[0]).value, args[1], args[2], ParsePort(args)).1), store)
  {
  }

  /** A successful test files a new connected session for the user, built as
      `create_session` builds it, and touches no other user. */
  lemma ConnectSuccess(store: Store, userId: int, args: seq<string>, test: Tester, now: int)
    requires |args| >= 3 && ValidateHost(args[0]).Some?
    requires test(ValidateHost(args[0]).value, args[1], args[2], ParsePort(args)).0
    ensures var host := ValidateHost(args[0]).value;
      var port := ParsePort(args);
      var s := NewSession(userId, host, args[1], args[2], port, now);
      var (reply, after) := ConnectStep(store, userId, args, test, now);
      s.Some?
      && reply == Connected(host, ShownPort(port), args[1], test(host, args[1], args[2], port).1)
      && after == store[userId := s.value.(isConnected := true)]
      && Lookup(after, userId, now) == Some(s.value.(isConnected := true))
  {
    var host := ValidateHost(args[0]).value;
    var port := ParsePort(args);
    if port.None? {
      ValidatedHostSession(args[0], userId, args[1], args[2], now);
    }
    var s := NewSession(userId, host, args[1], args[2], port, now).value;
    FileConnected(store, s, now);
  }

  /** Marking a just-created session connected only sets its flag. */
  lemma FileConnected(store: Store, s: Session, now: int)
    requires s.lastUsed == now && s.winrmClient.None?
    ensures AfterUpdate(store[s.userId := s], s.userId, true, None, now) == store[s.userId := s.(isConnected := true)]
    ensures Lookup(store[s.userId := s.(isConnected := true)], s.userId, now) == Some(s.(isConnected := true))
  {
    var filed := store[s.userId := s];
    assert Lookup(filed, s.userId, now) == Some(s);
    assert AfterGet(filed, s.userId, now) == filed;
  }

  /** `/connect` keeps the store consistent. */
  lemma ConnectKeeps(store: Store, userId: int, args: seq<string>, test: Tester, now: int)
    requires Consistent(store) && NotBefore(store, now)
    ensures Consistent(ConnectStep(store, userId, args, test, now).1)
  {
    if |args| >= 3 && ValidateHost(args[0]).Some? {
      var host := ValidateHost(args[0]).value;
      var port := ParsePort(args);
      ValidatedHostSession(args[0], userId, args[1], args[2], now);
      var s := NewSession(userId, host, args[1], args[2], port, now).value;
      CreateKeeps(store, s);
      UpdateKeeps(store[userId := s], userId, true, None, now);
    }
  }

  datatype RunReply = NoSession | RunUsage | Execute(route: Route)

  /** `/run`: no live connected session stops it first; only then is an
      empty argument list refused; otherwise the joined text is routed. */
  function RunDecision(session: Option<Session>, args: seq<string>): RunReply {
    if session.None? || !session.value.isConnected then NoSession
    else if args == [] then RunUsage
    else Execute(ClassifyCommand(Join(args, " ")))
  }

  /** The session check comes before the argument check. */
  lemma RunGuardOrder(session: Option<Session>, args: seq<string>)
    ensures session.None? ==> RunDecision(session, args) == NoSession
    ensures session.Some? && !session.value.isConnected ==> RunDecision(session, args) == NoSession
    ensures RunDecision(session, args) == RunUsage ==> session.Some? && session.value.isConnected && args == []
    ensures RunDecision(session, args).Execute? <==> session.Some? && session.value.isConnected && args != []
  {
  }

  /** A one-word `/run` goes to CMD exactly as typed unless it starts with the word. */
  lemma RunSingleWord(session: Session, w: string)
    requires session.isConnected && !StartsWith(Lower(w), PowerShellWord)
    ensures RunDecision(Some(session), [w]) == Execute(Cmd(w))
  {
  }

  /** The reply a finished command gets: its formatted output cut to the message limit. */
  function OutputReply(stdout: string, stderr: string, exitCode: int): (r: string)
    ensures |r| <= MaxOutputLength
    ensures |FormatCommandOutput(stdout, stderr, exitCode)| <= MaxOutputLength ==> r == FormatCommandOutput(stdout, stderr, exitCode)
  {
    TruncateText(FormatCommandOutput(stdout, stderr, exitCode), MaxOutputLength)
  }

  datatype StatusReply =
    | NoActiveSession
    | Active(host: string, port: int, username: string, connected: bool, minutes: int, seconds: int, lastUsed: int)

  /** `/status`: the remaining time is `SessionTtl` minus the time between
      creation and the last use, shown as floor minutes and seconds. */
  function StatusOf(session: Option<Session>): StatusReply {
    match session
    case None => NoActiveSession
    case Some(s) =>
      var remaining := SessionTtl - (s.lastUsed - s.createdAt);
      Active(s.host, s.port, s.username, s.isConnected, remaining / 60, remaining % 60, s.lastUsed)
  }

  /** Since the lookup renews the session first, the time shown counts from
      the session's creation to now; the seconds are always 0 to 59. */
  lemma StatusClock(store: Store, userId: int, now: int)
    requires Lookup(store, userId, now).Some?
    ensures var r := StatusOf(Lookup(store, userId, now));
      r.Active? && 0 <= r.seconds < 60
      && r.minutes * 60 + r.seconds == SessionTtl - (now - store[userId].createdAt)
  {
  }

  /** A session in use for longer than `SessionTtl` is live but shows a
      negative time: created at 0, last used at 800, asked at 1000, it shows
      -2 minutes and 20 seconds. */
  lemma StatusNegative(store: Store, s: Session)
    requires s.createdAt == 0 && s.lastUsed == 800 && store == map[s.userId := s]
    ensures Lookup(store, s.userId, 1000).Some?
    ensures var r := StatusOf(Lookup(store, s.userId, 1000)); r.Active? && r.minutes == -2 && r.seconds == 20
  {
  }

  /** The command handlers over the bot's one session store. */
  class Bot {
    var manager: SessionManager

    /** The manager's store invariant. */
    predicate Valid()
      reads this, manager
    {
      manager.Valid()
    }

    constructor ()
      ensures fresh(manager) && manager.sessions == map[] && Valid()
    {
      manager := new SessionManager();
    }

    /** `/connect`: guards, port, connection test, then create and mark connected. */
    method Connect(userId: int, args: seq<string>, test: Tester, now: int) returns (reply: ConnectReply)
      requires Valid()
      modifies manager
      ensures (reply, manager.sessions) == ConnectStep(old(manager.sessions), userId, args, test, now)
      ensures Valid()
    {
      if |args| < 3 {
        return ConnectUsage;
      }
      var host := ValidateHost(args[0]);
      if host.None? {
        return InvalidHost;
      }
      var username := args[1];
      var password := args[2];
      var port := ParsePort(args);
      var outcome := test(host.value, username, password, port);
      if !outcome.0 {
        return ConnectFailed(outcome.1);
      }
      ValidatedHostSession(args[0], userId, username, password, now);
      var session := manager.CreateSession(userId, host.value, username, password, port, now);
      var marked := manager.UpdateSessionConnection(userId, true, None, now);
      reply := Connected(host.value, ShownPort(port), username, outcome.1);
    }

    /** `/run`: look the session up (renewing or dropping it), then decide. */
    method RunCommand(userId: int, args: seq<string>, now: int) returns (reply: RunReply)
      requires Valid()
      modifies manager
      ensures reply == RunDecision(Lookup(old(manager.sessions), userId, now), args)
      ensures manager.sessions == AfterGet(old(manager.sessions), userId, now)
      ensures CreatedBy(old(manager.sessions), userId, now) ==> Valid()
    {
      var session := manager.GetSession(userId, now);
      if session.None? || !session.value.isConnected {
        return NoSession;
      }
      if args == [] {
        return RunUsage;
      }
      var command := Join(args, " ");
      reply := Execute(ClassifyCommand(command));
    }

    /** `/status`: look the session up (renewing or dropping it) and report it. */
    method Status(userId: int, now: int) returns (reply: StatusReply)
      requires Valid()
      modifies manager
      ensures reply == StatusOf(Lookup(old(manager.sessions), userId, now))
      ensures manager.sessions == AfterGet(old(manager.sessions), userId, now)
      ensures CreatedBy(old(manager.sessions), userId, now) ==> Valid()
    {
      var session := manager.GetSession(userId, now);
      reply := StatusOf(session);
    }

    /** `/disconnect`: success exactly when there was a session to delete. */
    method Disconnect(userId: int) returns (ok: bool)
      requires Valid()
      modifies manager
      ensures ok == (userId in old(manager.sessions))
      ensures manager.sessions == old(manager.sessions) - {userId}
      ensures Valid()
    {
      ok := manager.DeleteSession(userId);
    }
  }
}
