# Windows server admin bot — a verified model of its core

The bot is a Telegram bot. It lets an allowed user reach a Windows server over WinRM when remote desktop is unreliable. It has four core pieces, and this project models each of them in Dafny.

- **Credential extraction.** A pasted credential dump is normalised: whitespace runs become one space, a full-width colon becomes ':', en and em dashes become '-', and the ends are stripped. Four strategies are then tried in order, and the first candidate that passes validation wins:
  1. two labelled regular expressions (IP/Host/Server … User … Pass, and User … Pass … IP/Host);
  2. one explicitly labelled regular expression;
  3. split on arrows, bullets and dashes, then take the first dotted-quad token and the two tokens after it;
  4. take the first dotted quad in the text and the two words around it, within a 50-character window.

  The candidate is valid when its host matches `^\d{1,3}(\.\d{1,3}){3}(:\d+)?$` and its username and password are non-empty. Strategies 1 and 2 run on a small backtracking regular-expression matcher (module `Backtrack`) with Python's semantics: greedy repetition, left-to-right alternation, case-insensitive literals and leftmost search.
- **Utilities.** These are output truncation, password redaction, host validation and the formatting of command output.
- **Sessions.** A `SessionManager` object holds a dictionary from user id to session. A session expires when more than 900 seconds have passed since its last use. Reading a session refreshes its last-use time, and reading an expired one deletes it.
- **Command handlers.** These are the decision logic of `/connect`, `/run`, `/status` and `/disconnect`:
  - argument checking;
  - parsing the optional port;
  - deciding whether `/run` goes to PowerShell or to CMD;
  - the session changes each handler makes;
  - the time remaining that `/status` shows.

Modules: `Text` (string primitives with Python's semantics), `HostShape` (the dotted-quad shapes), `Backtrack`, `Extractor`, `Vectors` (worked examples of extraction), `Utils`, `Sessions` and `Commands`.

The model does three things the code does that a reader may not expect. These are proved below, not assumed.

- The help text's own example, `IP: 1.2.3.4 User: admin Pass: pw`, is not read as host/admin/pw. Strategy 1's first pattern takes the host-first branch and puts the groups in the wrong fields. The password `pw` lands in the host slot, so validation rejects it. Strategy 3 then wins with username `User:` and password `admin`. This holds in general: whenever the first pattern matches, the host slot gets the text after the password label, and the candidate is accepted only when that text has the host shape.
- `Host: 1.2.3.4 Username: admin Password: pw` yields password `word:`. The label alternatives try `Pass` before `Password`.
- `/status` shows `SESSION_TTL - (last_used - created_at)` and not the time until expiry. A session that is still live can show a negative time remaining.

The host validation checks the shape of the address, not its range: `999.999.999.999:0` is accepted. The description of the bot suggests a real IP address check, and the model follows the code.

## Model

| member | source | states |
|---|---|---|
| Text.Lower | handlers/commands.py:139 | `str.lower` keeps the length and lower-cases each character on its own |
| Text.Strip | extractor.py:39 | `str.strip`: the result has no leading or trailing whitespace and is a slice of the input |
| Text.StripNoop | utils.py:18 | stripping a text without outer whitespace leaves it unchanged, so validation and preprocessing may be repeated |
| Text.Words | extractor.py:74 | `str.split()` with no argument: every word is non-empty and has no whitespace |
| Text.WordsContained | extractor.py:74 | every word occurs in the text it was split from |
| Text.WordsJoin | extractor.py:74 | splitting a single-space join of non-empty, space-free words gives the words back |
| Text.SplitOnCount | utils.py:23 | the number of pieces is one more than the number of separators |
| Text.SplitOnOne | utils.py:22-24 | a text with exactly one separator splits into the parts before and after it |
| Text.SquashRuns | extractor.py:34 | `re.sub(r'\s+', ' ', …)`: every character of the result is a plain space or outside the squashed class |
| Text.SquashSpaceSingle | extractor.py:34 | after squashing whitespace, no two whitespace characters are adjacent |
| Text.SquashNoop | extractor.py:34 | squashing a text that is already single-spaced leaves it unchanged |
| Text.ReplaceChar | extractor.py:36-38 | `str.replace` of one character: the length is kept, each occurrence is replaced and every other character is kept |
| HostShape.HostShapeParts | extractor.py:123 | a text of the host shape is a dotted quad, optionally followed by ':' and digits; it starts and ends with a digit |
| HostShape.QuadWithPort | utils.py:28 | a dotted quad, ':' and a digit string together have the host shape |
| HostShape.HostGivesQuad | extractor.py:90 | a text holding a host-shaped substring holds a dotted quad |
| Backtrack.Search | extractor.py:49 | `re.search`: every group span of a match lies inside the text |
| Backtrack.SearchOpens | extractor.py:52-54 | in a successful search every group of the pattern is captured |
| Backtrack.LabelMiss | extractor.py:44-45 | after a group, a separator run and a label alternative, the match fails when no label occurs at any position the separator run can reach |
| Extractor.PreprocessNormalises | extractor.py:31-39 | preprocessed text is single-spaced, has only plain spaces, has no full-width colon or long dashes and has no outer whitespace |
| Extractor.NormalisedFixed | extractor.py:31-39 | preprocessing leaves normalised text unchanged |
| Extractor.PreprocessIdempotent | extractor.py:31-39 | preprocessing twice equals preprocessing once |
| Extractor.FromGroups | extractor.py:51-55 | the three fields of a labelled match are substrings of the text |
| Extractor.FirstLabelled | extractor.py:48-56 | none is returned exactly when no pattern matches; any candidate's three fields occur in the text |
| Extractor.FirstLabelledAt | extractor.py:48-55 | when pattern i matches and no earlier one does, the loop returns the candidate built from pattern i's match |
| Extractor.FirstLabelledUser | extractor.py:51-55 | a pattern whose text contains `User` yields host = group 3, username = group 1, password = group 2 |
| Extractor.IpUserPass | extractor.py:41-56 | strategy 1: any candidate's host occurs in the text |
| Extractor.HostLedFields | extractor.py:44 | in every match of a host-first layout, group 1 is digits and dots with an optional ':' and digits, and groups 2 and 3 are non-empty runs without whitespace, ',' or ';' |
| Extractor.UserLedFields | extractor.py:45 | in every match of a user-first layout, groups 1 and 2 are non-empty runs without whitespace, ',' or ';', and group 3 is digits and dots with an optional ':' and digits |
| Extractor.HostFirstFields | extractor.py:44-55 | when the first pattern matches, strategy 1 returns as host the text after the password label, as username the digits-and-dots text after the host label, and as password the text after the user label |
| Extractor.HostFirstAccepted | extractor.py:44-55 | a first-pattern match passes validation exactly when the text after the password label has the host shape |
| Extractor.UserFirstFields | extractor.py:45-55 | when only the second pattern matches, strategy 1 returns host = the digits-and-dots group after the host label, username and password = the field groups after their labels |
| Extractor.UserFirstAccepted | extractor.py:45-55 | a second-pattern match passes validation exactly when its host group does |
| Extractor.HostUserPass | extractor.py:58-68 | strategy 2 yields a candidate exactly when its pattern matches somewhere; the host occurs in the text |
| Extractor.HostUserPassFields | extractor.py:60-67 | strategy 2 returns groups 1, 2, 3 as host, username, password; the host is digits and dots with an optional ':' and digits, the others are non-empty runs without whitespace, ',' or ';' |
| Extractor.HostUserPassAccepted | extractor.py:60-67 | a strategy 2 match passes validation exactly when its host group does |
| Extractor.FirstHostToken | extractor.py:79-80 | the first word that is a dotted-quad host with two words after it; all earlier words fail the test |
| Extractor.WithSeparators | extractor.py:70-86 | strategy 3: any candidate passes validation and its host occurs in the text after separator removal |
| Extractor.FirstHostMatch | extractor.py:90-95 | the leftmost match of the word-bounded host pattern; no earlier position matches |
| Extractor.HostMatchShape | extractor.py:90 | every host match has the host shape |
| Extractor.FirstNeighbours | extractor.py:101-104 | the first word containing the host that has a word before and after it |
| Extractor.SimpleValid | extractor.py:88-110 | strategy 4: any candidate passes validation, its host has the host shape and occurs in the text |
| Extractor.Cascade | extractor.py:20-29 | the answer is the first strategy's candidate that passes validation; none exactly when no strategy's candidate passes |
| Extractor.AcceptedHost | extractor.py:112-130 | an accepted candidate's host has the host shape, and the dotted quad that begins it occurs in the text |
| Extractor.ExtractShape | extractor.py:20-29 | every extracted credential has a host of the host shape, a non-empty username and a non-empty password |
| Extractor.QuadBeforePreprocess | extractor.py:31-39 | a dotted quad in the preprocessed text was already in the raw text |
| Extractor.NoQuadNoCredentials | extractor.py:20-29 | a text without a dotted quad yields no credentials |
| Vectors.V1IpUserPass | extractor.py:44-55 | on the help text's example, strategy 1 returns host "pw", username "1.2.3.4", password "admin", and validation rejects it |
| Vectors.V1WithSeparators | extractor.py:70-86 | on the same example, strategy 3 returns host 1.2.3.4, username "User:", password "admin" |
| Vectors.V1Extract | extractor.py:20-29 | the full extraction of `IP: 1.2.3.4 User: admin Pass: pw` is {1.2.3.4, "User:", "admin"} |
| Vectors.V2HostUserPass | extractor.py:58-68 | on `Host: 1.2.3.4 Username: admin Password: pw` strategy 2 returns and accepts {1.2.3.4, "admin", "word:"} |
| Vectors.V2Extract | extractor.py:20-29 | the full extraction of `Host: 1.2.3.4 Username: admin Password: pw` is {1.2.3.4, "admin", "word:"} |
| Utils.TruncateText | utils.py:4-8 | text within the limit is kept; longer text keeps a prefix, ends in "...", and has exactly the limit's length when the limit is at least 3 |
| Utils.RedactPassword | utils.py:10-14 | an empty password leaves the text unchanged |
| Utils.RedactAbsent | utils.py:14 | text that does not contain the password is unchanged |
| Utils.RedactMarks | utils.py:14 | text containing the password gets the redaction marker |
| Utils.RedactHides | utils.py:14 | after redaction the password no longer occurs in the text |
| Utils.ValidateHostMeaning | utils.py:16-35 | the result is the stripped host exactly when it is a dotted quad, or a dotted quad with ':' and a digit string as its only colon; otherwise none |
| Utils.ValidateHostShape | utils.py:16-35 | for a host without a newline, validation succeeds exactly when the stripped host has the host shape |
| Utils.HostShapeAccepted | utils.py:16-35 | a host of the host shape is accepted and returned stripped |
| Utils.ValidateHostIdempotent | utils.py:16-35 | validating an accepted host again returns it unchanged |
| Utils.ValidateHostRejects | utils.py:21-35 | two or more colons, a trailing ':' or a trailing ']' are rejected |
| Utils.ValidateHostNoNames | utils.py:16-35 | a host containing a letter is rejected, so host names are refused |
| Utils.NoRangeCheck | utils.py:26-28 | `999.999.999.999:0` is accepted: no octet or port range check |
| Utils.NatToString | utils.py:47 | decimal rendering: a digit string without a leading zero whose value is the number |
| Utils.IntToString | utils.py:47 | `str(int)`: the digits of the magnitude, with '-' before a negative number |
| Utils.FormatCommandOutput | utils.py:37-49 | the stdout block and the stderr block are present only when non-empty; the exit line is always last; parts are joined by a blank line |
| Utils.FormatShape | utils.py:37-49 | the output is non-empty, starts with the stdout marker exactly when stdout is non-empty, and ends with the exit line |
| Sessions.SplitOnce | sessions.py:29 | `split(':', 1)`: the host part has no colon and the parts rebuild the text |
| Sessions.ParseIntRoundTrip | sessions.py:30 | `int()` reads back every rendered integer |
| Sessions.ParseIntDigits | sessions.py:30 | a digit string parses to its decimal value |
| Sessions.ParseIntColon | sessions.py:30 | a port text that still holds a colon raises, modelled as none |
| Sessions.NewSession | sessions.py:25-42 | the session holds the given user, credentials and time; an explicit port or a host without a colon always succeeds |
| Sessions.NewSessionExplicitPort | sessions.py:27 | an explicit port is used as given and the host is kept whole |
| Sessions.NewSessionDefaultPort | sessions.py:31-32 | a host without a colon and no port gives the WinRM port 5985 |
| Sessions.NewSessionSplitsHost | sessions.py:28-30 | `h:p` with no port argument gives host `h` and port `p` |
| Sessions.NewSessionTwoColons | sessions.py:29-30 | a host with two colons and no port raises, modelled as none |
| Sessions.GetCases | sessions.py:47-61 | a missing user gives none with no change; an expired session gives none and is deleted; a live one is returned with its last use set to now; other users are untouched |
| Sessions.GetKeepsExactlyLive | sessions.py:47-61 | after a read the user is still stored exactly when a session was returned, and the stored session is the one returned |
| Sessions.GetTwice | sessions.py:47-61 | reading twice at the same time gives the same answer and state as reading once |
| Sessions.UpdateCases | sessions.py:79-86 | with no live session nothing but the read happens; otherwise the live session gets the new flag and client |
| Sessions.SweepExact | sessions.py:88-99 | after cleanup exactly the live sessions remain, unchanged |
| Sessions.SweepCount | sessions.py:88-99 | the number removed plus the number kept equals the number before |
| Sessions.SweepIdempotent | sessions.py:88-99 | a second cleanup at the same time removes nothing |
| Sessions.SweepThenLookup | sessions.py:47-61 | cleanup never changes what a read at the same time returns |
| Sessions.CreateKeeps | sessions.py:44 | storing a new session keeps every session filed under its own user id, with creation no later than last use |
| Sessions.GetKeeps | sessions.py:47-61 | a read at a time no earlier than any last use keeps that invariant |
| Sessions.UpdateKeeps | sessions.py:79-86 | a connection update keeps that invariant |
| Sessions.SweepKeeps | sessions.py:88-99 | cleanup keeps that invariant |
| Sessions.SessionManager.constructor | sessions.py:22-23 | a new manager holds no sessions and satisfies the store invariant, which every method keeps (a read and an update keep it while the clock has not gone back) |
| Sessions.SessionManager.CreateSession | sessions.py:25-45 | the result is the new session, filed under the user id and replacing any old one |
| Sessions.SessionManager.GetSession | sessions.py:47-61 | returns the live session and refreshes it, or deletes an expired one |
| Sessions.SessionManager.DeleteSession | sessions.py:63-77 | reports whether the user had a session, and removes exactly that entry |
| Sessions.SessionManager.UpdateSessionConnection | sessions.py:79-86 | reports whether a live session existed; the state is the read followed by the update |
| Sessions.SessionManager.CleanupExpiredSessions | sessions.py:88-99 | removes exactly the expired sessions and returns how many there were |
| Commands.DropPrefix | handlers/commands.py:141 | `s[k:]`: the dropped prefix and the rest rebuild the text |
| Commands.ClassifyCommand | handlers/commands.py:138-144 | PowerShell exactly when the lower-cased command starts with "powershell"; otherwise the command goes to CMD unchanged |
| Commands.ClassifyPowerShell | handlers/commands.py:139-142 | `powershell <script>` runs the script as given |
| Commands.ClassifyIgnoresCase | handlers/commands.py:139 | any capitalisation of "powershell" at the start selects PowerShell |
| Commands.ClassifyNoBoundary | handlers/commands.py:139-141 | the test has no word boundary: `powershellGet-Process` runs `Get-Process` in PowerShell |
| Commands.ParsePortDigits | handlers/commands.py:90 | a port is read exactly when a fourth argument exists and is all digits, and its value is that number |
| Commands.ParsePortRoundTrip | handlers/commands.py:90 | a rendered port number is read back |
| Commands.ParsePortIgnoresRest | handlers/commands.py:90 | arguments after the fourth are ignored |
| Commands.ShownPort | handlers/commands.py:103 | `port or WINRM_PORT`: a missing port or port 0 shows 5985 |
| Commands.ValidatedHostSession | handlers/commands.py:83-98 | every host that validation accepts gives a session without raising |
| Commands.ShapedHostValid | handlers/commands.py:83-98 | a host of the host shape is accepted as is and gives a session |
| Commands.ExtractedHostValid | handlers/commands.py:83-98 | every extracted host passes validation unchanged and gives a session |
| Commands.ConnectGuards | handlers/commands.py:75-86 | fewer than three arguments or an invalid host answer without testing a connection and leave the sessions unchanged |
| Commands.ConnectFailureKeeps | handlers/commands.py:109-110 | a failed connection test reports failure and leaves the sessions unchanged |
| Commands.ConnectSuccess | handlers/commands.py:96-108 | a successful test files the new session as connected and reports the host, the shown port and the user |
| Commands.FileConnected | handlers/commands.py:98-99 | creating a session and marking it connected leaves exactly the connected session filed |
| Commands.ConnectKeeps | handlers/commands.py:70-110 | `/connect` keeps the session-store invariant |
| Commands.RunGuardOrder | handlers/commands.py:116-136 | a missing or unconnected session is refused before the arguments are looked at; a command runs exactly when a connected session and arguments exist |
| Commands.RunSingleWord | handlers/commands.py:136-144 | a single word that does not start with "powershell" runs in CMD as given |
| Commands.OutputReply | handlers/commands.py:166-167 | the reply never exceeds 4000 characters, and output that fits is sent whole |
| Commands.StatusClock | handlers/commands.py:208-211 | the minutes and seconds shown sum to the TTL minus the session's age since creation, with seconds in 0..59 |
| Commands.StatusNegative | handlers/commands.py:209-211 | a session created at 0, last used at 800 and read at 1000 is live but shows -2 minutes 20 seconds |
| Commands.Bot.constructor | handlers/commands.py:6 | the bot starts with an empty session manager |
| Commands.Bot.Connect | handlers/commands.py:70-110 | the reply and the new sessions are those of the `/connect` decision on the old sessions |
| Commands.Bot.RunCommand | handlers/commands.py:112-144 | the reply is the `/run` decision on the read session, and the state is that of the read |
| Commands.Bot.Status | handlers/commands.py:202-224 | the reply is the status of the read session, and the state is that of the read |
| Commands.Bot.Disconnect | handlers/commands.py:226-234 | reports whether a session existed and removes exactly that one |

## Left out

- The Telegram layer (the `telegram` package, reply text, emoji, Markdown parse mode, the `allowed_users_only` decorator) is not modelled; replies are datatypes that carry the values the messages show. security.py, message_handlers.py and main.py are not part of this model.
- winrm_client.py is not part of this model: the connection test is the `Tester` parameter of `/connect`, and running a CMD or PowerShell command (`run_cmd`, `run_ps`) is represented by the `Execute` reply and by `OutputReply` applied to its results.
- The lazy creation of a WinRM client in `execute_cmd` and `execute_powershell` (handlers/commands.py:150-159 and 178-187) and their exception replies are not modelled; a client is an opaque `Client` value. As written, this code never reaches the server. handlers/commands.py does not import `winrm`, so the first `/run` of a session stores a `WinRMClient` whose `session` is None (line 153) and then fails with a `NameError` at line 154, which is answered as an execution error. Every later `/run` finds that client, and its `run_cmd` or `run_ps` calls a method on None; winrm_client.py:41-60 turns this into exit code 1 with a "Command execution error" (or "PowerShell execution error") message. `Execute` and `Bot.RunCommand` describe the intended flow, where the command runs on the server.
- The configuration is fixed at its defaults (TTL 900 seconds, WinRM port 5985, output limit 4000); environment overrides are not modelled.
- The clock is one integer `now` per operation; `time.time()` returns floats and is read twice in `create_session`, so fractional seconds and the tiny gap between creation and last use are not modelled.
- A returned `Session` is a value: the source hands out the stored object itself, so later changes through that reference (aliasing) are not modelled; each handler's changes are written back explicitly.
- Setting the client to None before deletion (sessions.py:66-73) has no observable effect once the entry is removed and is not modelled.
- Concurrency between handlers is not modelled.
- Character classes are ASCII: `\s`, `\d`, `str.isdigit`, `str.lower`, `str.strip` and `int()` are modelled for ASCII only; Unicode digits, Unicode whitespace, and underscores inside `int()` literals are not.
- `\w` and `\b` are ASCII too: Python counts every Unicode letter and digit as a word character, the model only ASCII letters, digits and '_'. So strategy 4 can find a host the code does not: in `a 器1.2.3.4 b` Python sees no word boundary between 器 and 1 and finds no match, while the model returns {1.2.3.4, "a", "b"}.
- `re.IGNORECASE` is modelled as ASCII case folding of the label words. Python's Unicode folding also lets a few non-ASCII letters match them (the long s 'ſ' matches 's', the Kelvin sign matches 'k'); the model does not.
- Extractor.FromGroups: the `'User' in pattern` test on the pattern's text is a boolean carried with each pattern, set to what that test gives for each of the two patterns.
- Utils.RedactHides: requires that the password not start with a character of the marker "***REDACTED***" and contain no '*'; otherwise a replacement can itself form a new occurrence of the password, and the statement does not hold in general.
