/**
 * The bot's string helpers: cutting long command output down to the message
 * limit, hiding a password before text is logged, normalising the host
 * address a user typed, and laying out what a remote command printed.
 */
module Utils {
  import opened Text
  import opened HostShape

  // ---------------------------------------------------------------------
  // truncate_text

  /** The default `max_length`; the bot passes the same value from its settings. */
  const MaxOutputLength: int := 4000

  /** Python's `s[:k]`: a negative `k` counts from the end, and both ends are clipped. */
  function PrefixTo(s: string, k: int): (r: string)
    ensures |r| == if k >= |s| then |s| else if k >= 0 then k else if |s| + k >= 0 then |s| + k else 0
    ensures r == s[..|r|]
  {
    if k >= |s| then s
    else if k >= 0 then s[..k]
    else if |s| + k >= 0 then s[..|s| + k]
    else []
  }

  /** `truncate_text`: a text that fits comes back as it is; a longer one is
      cut to its head followed by "...", exactly `maxLength` long when
      `maxLength` is at least 3. A smaller `maxLength` makes the slice bound
      negative, which Python counts from the end. */
  function TruncateText(text: string, maxLength: int): (r: string)
    ensures |text| <= maxLength ==> r == text
    ensures |text| > maxLength ==> |r| >= 3 && r[|r| - 3..] == "..." && |r| - 3 <= |text| && r[..|r| - 3] == text[..|r| - 3]
    ensures |text| > maxLength && maxLength >= 3 ==> |r| == maxLength
    ensures |text| > maxLength && maxLength < 3 ==> |r| == 3 + if |text| + maxLength >= 3 then |text| + maxLength - 3 else 0
  {
    if |text| <= maxLength then text
    else
      var head := PrefixTo(text, maxLength - 3);
      assert (head + "...")[..|head|] == head;
      head + "..."
  }

  // ---------------------------------------------------------------------
  // redact_password

  const Redacted: string := "***REDACTED***"

  /** `s.replace(w, b)`: occurrences of `w` found left to right, each replaced
      and skipped over, so that they never overlap. */
  function ReplaceAll(s: string, w: string, b: string): string
    requires w != []
    decreases |s|
  {
    if s == [] then []
    else if StartsWith(s, w) then b + ReplaceAll(s[|w|..], w, b)
    else [s[0]] + ReplaceAll(s[1..], w, b)
  }

  /** `redact_password`: an empty password leaves the text alone; otherwise
      every occurrence is replaced by the marker. */
  function RedactPassword(text: string, password: string): (r: string)
    ensures password == [] ==> r == text
  {
    if password == [] then text else ReplaceAll(text, password, Redacted)
  }

  /** Text that holds no occurrence of the word is copied unchanged. */
  lemma {:induction false} ReplaceAllAbsent(s: string, w: string, b: string)
    requires w != [] && !Contains(s, w)
    ensures ReplaceAll(s, w, b) == s
    decreases |s|
  {
    if s != [] {
      ReplaceAllAbsent(s[1..], w, b);
      assert s == [s[0]] + s[1..];
    }
  }

  /** Text without the password comes back unchanged. */
  lemma RedactAbsent(text: string, password: string)
    requires !Contains(text, password)
    ensures RedactPassword(text, password) == text
  {
    if password != [] {
      ReplaceAllAbsent(text, password, Redacted);
    }
  }

  /** Text in which the password occurs gets the marker. */
  lemma {:induction false} RedactMarks(text: string, password: string)
    requires password != [] && Contains(text, password)
    ensures Contains(RedactPassword(text, password), Redacted)
    decreases |text|
  {
    var r := RedactPassword(text, password);
    if StartsWith(text, password) {
      ContainsAt(r, Redacted, 0);
    } else {
      RedactMarks(text[1..], password);
      var i := ContainsIndex(ReplaceAll(text[1..], password, Redacted), Redacted);
      assert r[i + 1..i + 1 + |Redacted|] == Redacted;
      ContainsAt(r, Redacted, i + 1);
    }
  }

  /** Until the first replacement, the output copies the input: a prefix of
      the output free of '*' is a prefix of the input. */
  lemma {:induction false} ReplacePrefixKept(s: string, w: string, k: nat)
    requires w != [] && k <= |ReplaceAll(s, w, Redacted)|
    ensures (forall j :: 0 <= j < k ==> ReplaceAll(s, w, Redacted)[j] != '*') ==>
      k <= |s| && ReplaceAll(s, w, Redacted)[..k] == s[..k]
    decreases |s|
  {
    var r := ReplaceAll(s, w, Redacted);
    if k > 0 && s != [] && StartsWith(s, w) {
      assert r == Redacted + ReplaceAll(s[|w|..], w, Redacted);
      assert r[0] == '*';
    }
    if k > 0 && s != [] && !StartsWith(s, w) && (forall j :: 0 <= j < k ==> r[j] != '*') {
      var t := ReplaceAll(s[1..], w, Redacted);
      assert r == [s[0]] + t;
      forall j | 0 <= j < k - 1 ensures t[j] != '*' {
        assert t[j] == r[j + 1];
      }
      ReplacePrefixKept(s[1..], w, k - 1);
      assert r[..k] == [s[0]] + t[..k - 1];
      assert s[..k] == [s[0]] + s[1..][..k - 1];
    }
  }

  /** An occurrence of `w` in `p + t` that cannot start inside `p` lies in `t`. */
  lemma {:induction false} ContainsSkip(p: string, t: string, w: string)
    requires w != [] && w[0] !in p
    ensures Contains(p + t, w) ==> Contains(t, w)
    decreases |p|
  {
    if p != [] {
      assert (p + t)[0] == p[0];
      assert (p + t)[1..] == p[1..] + t;
      ContainsSkip(p[1..], t, w);
    } else {
      assert p + t == t;
    }
  }

  /** Copying the first character and redacting the rest cannot create an
      occurrence of a password without '*' at the front. */
  lemma CopyKeepsStart(s: string, w: string)
    requires s != [] && w != [] && '*' !in w
    ensures StartsWith([s[0]] + ReplaceAll(s[1..], w, Redacted), w) ==> StartsWith(s, w)
  {
    var t := ReplaceAll(s[1..], w, Redacted);
    var r := [s[0]] + t;
    if StartsWith(r, w) {
      forall j | 0 <= j < |w| - 1 ensures t[j] != '*' {
        assert t[j] == r[j + 1] == w[j + 1];
      }
      ReplacePrefixKept(s[1..], w, |w| - 1);
      assert r[..|w|] == [s[0]] + t[..|w| - 1];
      assert s[..|w|] == [s[0]] + s[1..][..|w| - 1];
    }
  }

  /** A password that does not start with a character of the marker and holds
      no '*' is gone from the redacted text: no occurrence can start inside a
      marker, nor run from copied text into one. */
  lemma {:induction false} RedactHides(text: string, password: string)
    requires password != [] && password[0] !in Redacted && '*' !in password
    ensures !Contains(RedactPassword(text, password), password)
    decreases |text|
  {
    var w := password;
    if text != [] {
      if StartsWith(text, w) {
        RedactHides(text[|w|..], w);
        ContainsSkip(Redacted, ReplaceAll(text[|w|..], w, Redacted), w);
      } else {
        RedactHides(text[1..], w);
        CopyKeepsStart(text, w);
      }
    }
  }

  // ---------------------------------------------------------------------
  // validate_host

  /** The address forms `validate_host` accepts, once stripped: a dotted quad,
      or a dotted quad, one ':' and a non-empty string of digits. The quad
      before the ':' is tested with `$`, which lets it end with a newline. */
  predicate HostForm(h: string) {
    IsQuad(h) || exists i :: 0 <= i < |h| && PortAt(h, i)
  }

  /** `h[i]` is the only ':' in `h`. */
  predicate OnlyColonAt(h: string, i: int) {
    0 <= i < |h| && h[i] == ':' && ':' !in h[..i] && ':' !in h[i + 1..]
  }

  /** The only ':' in `h` is at `i`, with a quad before it and digits after it. */
  predicate PortAt(h: string, i: int) {
    OnlyColonAt(h, i) && DollarQuad(h[..i]) && IsDigits(h[i + 1..])
  }

  /** `validate_host`: strip the input; with a ':' in it and no trailing ']',
      split it on ':' and accept exactly two parts, a quad and a digit string;
      otherwise accept a bare quad. */
  function ValidateHost(host: string): Option<string> {
    var h := Strip(host);
    var parts := SplitOn(h, ':');
    if ':' in h && !EndsWith(h, "]") && |parts| == 2 && DollarQuad(parts[0]) && IsDigits(parts[1]) then
      Some(parts[0] + ":" + parts[1])
    else if DollarQuad(h) then Some(h)
    else None
  }

  /** A stripped text cannot end with a newline, so `$` adds nothing there. */
  lemma StrippedDollar(h: string)
    requires h == [] || (!IsSpace(h[0]) && !IsSpace(h[|h| - 1]))
    ensures DollarQuad(h) == IsQuad(h)
  {
  }

  /** The only ':' of a text splits it into the two sides of that ':'. */
  lemma OneColon(h: string, i: nat)
    requires OnlyColonAt(h, i)
    ensures Count(h, ':') == 1 && SplitOn(h, ':') == [h[..i], h[i + 1..]]
  {
    assert h == h[..i] + [':'] + h[i + 1..];
    SplitOnOne(h[..i], ':', h[i + 1..]);
    CountIn(h[..i], ':');
    CountIn(h[i + 1..], ':');
    CountAppend(h[..i] + [':'], h[i + 1..], ':');
    CountAppend(h[..i], [':'], ':');
  }

  /** Without a ':', the accepted form is the bare quad. */
  lemma ColonFree(h: string)
    ensures ':' !in h ==> (HostForm(h) <==> IsQuad(h))
  {
  }

  /** A ':' that occurs once is the only one, and it splits the text in two. */
  lemma SingleColonSplit(h: string, j: nat)
    requires j < |h| && h[j] == ':' && Count(h, ':') == 1
    ensures OnlyColonAt(h, j) && SplitOn(h, ':') == [h[..j], h[j + 1..]] && h == h[..j] + ":" + h[j + 1..]
    ensures forall k :: OnlyColonAt(h, k) ==> k == j
  {
    CountOne(h, ':', j);
    OneColon(h, j);
    forall k | OnlyColonAt(h, k) ensures k == j {
      OneColon(h, k);
      assert |h[..k]| == k;
    }
  }

  /** With exactly one ':', the accepted form is a quad before it and digits
      after it, and then the text does not end with ']'. */
  lemma SingleColon(h: string, j: nat)
    requires j < |h| && h[j] == ':' && Count(h, ':') == 1
    ensures OnlyColonAt(h, j) && SplitOn(h, ':') == [h[..j], h[j + 1..]] && h == h[..j] + ":" + h[j + 1..]
    ensures HostForm(h) <==> PortAt(h, j)
    ensures IsDigits(h[j + 1..]) ==> !EndsWith(h, "]")
  {
    SingleColonSplit(h, j);
    QuadDigitsAndDots(h);
    assert h[j] in h;
    if IsDigits(h[j + 1..]) {
      assert h[|h| - 1] == h[j + 1..][|h| - j - 2];
    }
  }

  /** With two ':' or more, the split has more than two parts and no form is accepted. */
  lemma ManyColons(h: string)
    ensures Count(h, ':') >= 2 ==> |SplitOn(h, ':')| > 2 && !HostForm(h)
  {
    SplitOnCount(h, ':');
    QuadDigitsAndDots(h);
    CountIn(h, ':');
    forall k | OnlyColonAt(h, k)
      ensures Count(h, ':') == 1
    {
      OneColon(h, k);
    }
  }

  /** `validate_host` returns the stripped input exactly when it has one of
      the accepted forms, and `None` otherwise. The test for a trailing ']'
      never decides anything: a text ending in ']' has no digit port. */
  lemma ValidateHostMeaning(host: string)
    ensures ValidateHost(host) == if HostForm(Strip(host)) then Some(Strip(host)) else None
  {
    var h := Strip(host);
    StrippedDollar(h);
    CountIn(h, ':');
    QuadDigitsAndDots(h);
    if ':' !in h {
      ColonFree(h);
    } else if Count(h, ':') == 1 {
      var j :| 0 <= j < |h| && h[j] == ':';
      SingleColon(h, j);
    } else {
      ManyColons(h);
    }
  }

  /** The characters of a quad tested with `$`: digits, dots and a final newline. */
  lemma DollarQuadChars(q: string)
    ensures DollarQuad(q) ==> forall k :: 0 <= k < |q| ==> IsDigit(q[k]) || q[k] == '.' || q[k] == '\n'
  {
    QuadDigitsAndDots(q);
    if q != [] {
      var p := q[..|q| - 1];
      QuadDigitsAndDots(p);
      assert forall k :: 0 <= k < |p| ==> p[k] == q[k];
    }
  }

  /** A quad, its only ':' and a port: digits, dots, that ':' and a newline
      before it at most. */
  lemma PortChars(h: string, i: nat)
    requires PortAt(h, i)
    ensures forall k :: 0 <= k < |h| ==> IsDigit(h[k]) || h[k] == '.' || h[k] == ':' || h[k] == '\n'
  {
    var ip := h[..i];
    var port := h[i + 1..];
    DollarQuadChars(ip);
    forall k | 0 <= k < |h| ensures IsDigit(h[k]) || h[k] == '.' || h[k] == ':' || h[k] == '\n' {
      if k < i {
        assert ip[k] == h[k];
      } else if k > i {
        assert port[k - i - 1] == h[k];
      }
    }
  }

  /** A quad, its only ':' and a port: one ':', and a digit at the end. */
  lemma PortFacts(h: string, i: nat)
    requires PortAt(h, i)
    ensures Count(h, ':') == 1 && IsDigit(h[|h| - 1])
  {
    OneColon(h, i);
    PortLastDigit(h, i);
  }

  lemma PortLastDigit(h: string, i: nat)
    requires PortAt(h, i)
    ensures IsDigit(h[|h| - 1])
  {
    var port := h[i + 1..];
    assert IsDigit(port[|port| - 1]);
    assert h[|h| - 1] == port[|port| - 1];
  }

  /** What an accepted form looks like: at most one ':', and only digits,
      dots, that ':' and possibly a newline before it, ending with a digit. */
  lemma HostFormFacts(h: string)
    ensures HostForm(h) ==> (Count(h, ':') <= 1 && h != [] && IsDigit(h[|h| - 1])
      && forall k :: 0 <= k < |h| ==> IsDigit(h[k]) || h[k] == '.' || h[k] == ':' || h[k] == '\n')
  {
    QuadDigitsAndDots(h);
    CountIn(h, ':');
    if HostForm(h) && !IsQuad(h) {
      var i :| 0 <= i < |h| && PortAt(h, i);
      PortFacts(h, i);
      PortChars(h, i);
    }
  }

  /** Every text of the host shape is an accepted form. */
  lemma ShapeForm(h: string)
    ensures IsHostShape(h) ==> HostForm(h)
  {
    if IsHostShape(h) {
      var e := HostShapeParts(h);
      if e < |h| {
        assert PortAt(h, e);
      }
    }
  }

  /** An accepted form without a newline has the host shape. */
  lemma FormShape(h: string)
    ensures HostForm(h) && '\n' !in h ==> IsHostShape(h)
  {
    if HostForm(h) && '\n' !in h && !IsQuad(h) {
      var i :| 0 <= i < |h| && PortAt(h, i);
      var ip := h[..i];
      if ip != [] {
        assert ip[|ip| - 1] == h[i - 1];
      }
      assert IsQuad(ip);
      QuadWithPort(ip, h[i + 1..]);
      ColonJoin(h, i);
    }
  }

  /** Cutting at a ':' and joining the two sides with ':' gives the text back. */
  lemma ColonJoin(h: string, i: nat)
    requires i < |h| && h[i] == ':'
    ensures h == h[..i] + ":" + h[i + 1..]
  {
    assert h == h[..i] + [h[i]] + h[i + 1..];
    assert [h[i]] == ":";
  }

  /** Every host of the shape `\d{1,3}(\.\d{1,3}){3}(:\d+)?` is accepted as it
      is, with no range check on the numbers. */
  lemma HostShapeAccepted(host: string)
    requires IsHostShape(Strip(host))
    ensures ValidateHost(host) == Some(Strip(host))
  {
    ShapeForm(Strip(host));
    ValidateHostMeaning(host);
  }

  /** Without a newline in it, an input is accepted exactly when its
      stripped form has the host shape. */
  lemma ValidateHostShape(host: string)
    requires '\n' !in host
    ensures ValidateHost(host).Some? <==> IsHostShape(Strip(host))
  {
    StripKeepsOut(host, '\n');
    ShapeForm(Strip(host));
    FormShape(Strip(host));
    ValidateHostMeaning(host);
  }

  /** `validate_host` is idempotent: what it returns, it accepts unchanged. */
  lemma ValidateHostIdempotent(host: string)
    requires ValidateHost(host).Some?
    ensures ValidateHost(ValidateHost(host).value) == ValidateHost(host)
  {
    var h := Strip(host);
    ValidateHostMeaning(host);
    StripNoop(h);
    ValidateHostMeaning(h);
  }

  /** The numbers are not range-checked: "999.999.999.999:0" is a valid host. */
  lemma NoRangeCheck()
    ensures ValidateHost("999.999.999.999:0") == Some("999.999.999.999:0")
  {
    var h := "999.999.999.999:0";
    NinesHost(h);
    HostShapeAccepted(h);
  }

  lemma NinesHost(h: string)
    requires h == "999.999.999.999:0"
    ensures IsHostShape(Strip(h)) && Strip(h) == h
  {
    var q := h[..15];
    NinesQuad(q);
    QuadWithPort(q, "0");
    assert h == q + ":" + "0";
    StripNoop(h);
  }

  lemma NinesQuad(q: string)
    requires q == "999.999.999.999"
    ensures IsQuad(q)
  {
    assert DigitRun(q, 15) == 0 && DigitRun(q, 14) == 1 && DigitRun(q, 12) == 3;
    assert DigitRun(q, 11) == 0 && DigitRun(q, 10) == 1 && DigitRun(q, 8) == 3;
    assert DigitRun(q, 7) == 0 && DigitRun(q, 6) == 1 && DigitRun(q, 4) == 3;
    assert DigitRun(q, 3) == 0 && DigitRun(q, 2) == 1 && DigitRun(q, 0) == 3;
    assert DottedEnd(q, 11, 1) == Some(15);
    assert DottedEnd(q, 7, 2) == Some(15);
    assert DottedEnd(q, 3, 3) == Some(15);
  }

  /** Inputs with two ':' or more are refused, and so are an empty port and
      a trailing ']'. */
  lemma ValidateHostRejects(host: string)
    requires var h := Strip(host); Count(h, ':') >= 2 || EndsWith(h, ":") || EndsWith(h, "]")
    ensures ValidateHost(host) == None
  {
    HostFormFacts(Strip(host));
    ValidateHostMeaning(host);
  }

  /** A letter anywhere in the stripped input, as in a host name, is refused. */
  lemma ValidateHostNoNames(host: string, k: nat)
    requires k < |Strip(host)| && IsLetter(Strip(host)[k])
    ensures ValidateHost(host) == None
  {
    HostFormFacts(Strip(host));
    ValidateHostMeaning(host);
  }

  // ---------------------------------------------------------------------
  // format_command_output

  /** The character of decimal digit `d`. */
  function DigitChar(d: nat): (c: char)
    requires d < 10
    ensures IsDigit(c) && c as int - '0' as int == d
  {
    (d + '0' as int) as char
  }

  /** `str(n)` for a natural number: its decimal digits, no leading zero. */
  function NatToString(n: nat): (r: string)
    ensures IsDigits(r) && DigitsValue(r) == n
    ensures |r| > 1 ==> r[0] != '0'
  {
    if n < 10 then [DigitChar(n)]
    else
      var r := NatToString(n / 10) + [DigitChar(n % 10)];
      assert r[..|r| - 1] == NatToString(n / 10);
      r
  }

  /** `str(n)`: a minus sign before the digits of a negative number. */
  function IntToString(n: int): (r: string)
    ensures n >= 0 ==> IsDigits(r) && DigitsValue(r) == n
    ensures n < 0 ==> |r| >= 2 && r[0] == '-' && IsDigits(r[1..]) && DigitsValue(r[1..]) == -n
  {
    if n >= 0 then NatToString(n)
    else
      var r := "-" + NatToString(-n);
      assert r[1..] == NatToString(-n);
      r
  }

  function StdoutBlock(stdout: string): string {
    "\U{1F4E4} **Stdout:**\n```\n" + stdout + "\n```"
  }

  function StderrBlock(stderr: string): string {
    "\U{1F4E5} **Stderr:**\n```\n" + stderr + "\n```"
  }

  function ExitLine(exitCode: int): string {
    "\U{1F522} **Exit Code:** `" + IntToString(exitCode) + "`"
  }

  /** The blocks that are shown, in order. */
  function OutputParts(stdout: string, stderr: string, exitCode: int): seq<string> {
    (if stdout != [] then [StdoutBlock(stdout)] else [])
    + (if stderr != [] then [StderrBlock(stderr)] else [])
    + [ExitLine(exitCode)]
  }

  /** `format_command_output`: the stdout block when stdout is not empty, the
      stderr block when stderr is not empty, and always the exit-code line
      last, separated by blank lines. */
  function FormatCommandOutput(stdout: string, stderr: string, exitCode: int): (r: string)
    ensures stdout == [] && stderr == [] ==> r == ExitLine(exitCode)
    ensures stdout != [] && stderr == [] ==> r == StdoutBlock(stdout) + "\n\n" + ExitLine(exitCode)
    ensures stdout == [] && stderr != [] ==> r == StderrBlock(stderr) + "\n\n" + ExitLine(exitCode)
    ensures stdout != [] && stderr != [] ==> r == StdoutBlock(stdout) + "\n\n" + StderrBlock(stderr) + "\n\n" + ExitLine(exitCode)
  {
    var parts := OutputParts(stdout, stderr, exitCode);
    assert stdout != [] && stderr != [] ==>
      (parts[1..] == [StderrBlock(stderr), ExitLine(exitCode)]
       && Join(parts[1..], "\n\n") == StderrBlock(stderr) + "\n\n" + ExitLine(exitCode));
    Join(parts, "\n\n")
  }

  /** The output starts with the stdout marker exactly when there is stdout,
      and always ends with the exit-code line. */
  lemma FormatShape(stdout: string, stderr: string, exitCode: int)
    ensures var r := FormatCommandOutput(stdout, stderr, exitCode);
      r != [] && (r[0] == '\U{1F4E4}' <==> stdout != []) && EndsWith(r, ExitLine(exitCode))
  {
    var r := FormatCommandOutput(stdout, stderr, exitCode);
    var e := ExitLine(exitCode);
    var x := r[..|r| - |e|];
    assert r == x + e by {
      if stdout != [] && stderr != [] {
        assert r == (StdoutBlock(stdout) + "\n\n" + StderrBlock(stderr) + "\n\n") + e;
      } else if stdout != [] {
        assert r == (StdoutBlock(stdout) + "\n\n") + e;
      } else if stderr != [] {
        assert r == (StderrBlock(stderr) + "\n\n") + e;
      }
    }
    assert r[|r| - |e|..] == e;
  }
}
