/**
 * The credential extractor: a free-text dump is normalised and then handed
 * to four heuristics in a fixed order; the first candidate
 * `{host, username, password}` that passes the validation gate is the answer.
 */
module Extractor {
  import opened Text
  import opened HostShape
  import opened Backtrack

  datatype Credentials = Credentials(host: string, username: string, password: string)

  const FullWidthColon: char := '\U{FF1A}'
  const EnDash: char := '\U{2013}'
  const EmDash: char := '\U{2014}'

  /** Every whitespace run becomes one space, the full-width colon becomes ':',
      en and em dashes become '-', and surrounding whitespace is stripped. */
  function Preprocess(text: string): string {
    Strip(ReplaceChar(ReplaceChar(ReplaceChar(SquashRuns(text, IsSpace), FullWidthColon, ':'), EnDash, '-'), EmDash, '-'))
  }

  /** The shape of every preprocessed text. */
  predicate Normalised(t: string) {
    && (t == [] || (!IsSpace(t[0]) && !IsSpace(t[|t| - 1])))
    && SingleSpaced(t)
    && SpacesArePlain(t)
    && FullWidthColon !in t && EnDash !in t && EmDash !in t
  }

  /** Replacing a character by a character that is not whitespace keeps
      single plain spacing. */
  lemma ReplaceKeepsSpacing(s: string, a: char, b: char)
    requires SingleSpaced(s) && SpacesArePlain(s) && !IsSpace(a) && !IsSpace(b)
    ensures SingleSpaced(ReplaceChar(s, a, b)) && SpacesArePlain(ReplaceChar(s, a, b))
    ensures b != a ==> a !in ReplaceChar(s, a, b)
  {
    var r := ReplaceChar(s, a, b);
    forall i | 0 <= i < |r| ensures IsSpace(r[i]) == IsSpace(s[i]) && (IsSpace(r[i]) ==> r[i] == s[i]) && (b != a ==> r[i] != a) {
    }
    if b != a {
      forall c | c in r ensures c != a {
        var i :| 0 <= i < |r| && r[i] == c;
      }
    }
  }

  /** Replacing a character keeps out a character that was absent and is not the replacement. */
  lemma ReplaceKeepsAbsent(s: string, a: char, b: char, c: char)
    requires c !in s && c != b
    ensures c !in ReplaceChar(s, a, b)
  {
    var r := ReplaceChar(s, a, b);
    forall d | d in r ensures d != c {
      var i :| 0 <= i < |r| && r[i] == d;
      assert s[i] in s;
    }
  }

  /** Stripping keeps what holds of every part of a text. */
  lemma StripKeeps(s: string)
    requires SingleSpaced(s) && SpacesArePlain(s) && FullWidthColon !in s && EnDash !in s && EmDash !in s
    ensures Normalised(Strip(s))
  {
    var r := Strip(s);
    var k := StripStart(s);
    assert r == s[k..k + |r|];
    forall i | 0 <= i < |r| ensures r[i] == s[k + i] {
    }
    forall c | c in r ensures c in s {
      var i :| 0 <= i < |r| && r[i] == c;
      assert s[k + i] in s;
    }
    forall i | 0 <= i < |r| - 1 ensures !(IsSpace(r[i]) && IsSpace(r[i + 1])) {
      assert r[i + 1] == s[k + i + 1];
    }
  }

  /** Preprocessing yields text with no whitespace at either end, no two
      whitespace characters side by side, only plain spaces, and none of the
      replaced characters. */
  lemma PreprocessNormalises(text: string)
    ensures Normalised(Preprocess(text))
  {
    var a := SquashRuns(text, IsSpace);
    SquashSpaceSingle(text);
    assert SpacesArePlain(a);
    var b := ReplaceChar(a, FullWidthColon, ':');
    ReplaceKeepsSpacing(a, FullWidthColon, ':');
    var c := ReplaceChar(b, EnDash, '-');
    ReplaceKeepsSpacing(b, EnDash, '-');
    ReplaceKeepsAbsent(b, EnDash, '-', FullWidthColon);
    var d := ReplaceChar(c, EmDash, '-');
    ReplaceKeepsSpacing(c, EmDash, '-');
    ReplaceKeepsAbsent(c, EmDash, '-', FullWidthColon);
    ReplaceKeepsAbsent(c, EmDash, '-', EnDash);
    StripKeeps(d);
  }

  /** Preprocessing leaves normalised text as it is. */
  lemma NormalisedFixed(t: string)
    requires Normalised(t)
    ensures Preprocess(t) == t
  {
    SquashNoop(t);
    ReplaceAbsent(t, FullWidthColon, ':');
    ReplaceAbsent(t, EnDash, '-');
    ReplaceAbsent(t, EmDash, '-');
    StripNoop(t);
  }

  /** Preprocessing twice is preprocessing once. */
  lemma PreprocessIdempotent(text: string)
    ensures Preprocess(Preprocess(text)) == Preprocess(text)
  {
    PreprocessNormalises(text);
    NormalisedFixed(Preprocess(text));
  }

  // ---------------------------------------------------------------------
  // Strategies 1 and 2: labelled patterns

  /** A labelled pattern of strategy 1: whether its regular-expression
      source contains the text `User` (which decides how the groups are read)
      and the program the matcher runs. */
  datatype Labelled = Labelled(mentionsUser: bool, prog: seq<Node>)

  /** A label word, then any run of `[\s:：\-]`. */
  function Label(words: seq<string>): seq<Node> {
    [Alt(words), Rep(LabelSep, 0)]
  }

  /** `([\d\.]+(?::\d+)?)` as group `g`. */
  function HostGroup(g: nat): seq<Node> {
    [Open(g), Rep(DigitOrDot, 1), Try(2), Alt([":"]), Rep(Digit, 1), Close(g)]
  }

  /** `([^\s,;]+)` as group `g`. */
  function FieldGroup(g: nat): seq<Node> {
    [Open(g), Rep(FieldChar, 1), Close(g)]
  }

  /** Host label (IP, Host, Server or the Chinese word for address), the
      host as group 1, user label, the username as group 2, password label,
      the password as group 3, with runs of `[\s,;\-]` between the fields.
      Its source contains `User`. */
  const HostFirst: Labelled := Labelled(
    true,
    (Label(["IP", "Host", "Server", "\U{5730}\U{5740}"]) + HostGroup(1))
    + ([Rep(FieldSep, 0)] + Label(["User", "Username", "\U{7528}\U{6237}", "\U{7528}\U{6237}\U{540D}"]) + FieldGroup(2))
    + ([Rep(FieldSep, 0)] + Label(["Pass", "Password", "\U{5BC6}\U{7801}"]) + FieldGroup(3)))

  /** User label, the username as group 1, password label, the password as
      group 2, host label (IP or Host), the host as group 3. Its source
      contains `User`. */
  const UserFirst: Labelled := Labelled(
    true,
    (Label(["User", "Username"]) + FieldGroup(1))
    + ([Rep(FieldSep, 0)] + Label(["Pass", "Password"]) + FieldGroup(2))
    + ([Rep(FieldSep, 0)] + Label(["IP", "Host"]) + HostGroup(3)))

  /** The patterns of strategy 1, in the order they are tried. */
  const IpUserPassPatterns: seq<Labelled> := [HostFirst, UserFirst]

  /** Strategy 2's pattern: Host or Server label, the host as group 1, any
      run of non-letters, user label, the username as group 2, any run of
      non-letters, password label (Pass tried before Password), the password
      as group 3. */
  const HostUserPassPattern: seq<Node> :=
    (Label(["Host", "Server"]) + HostGroup(1))
    + ([Rep(NonLetter, 0)] + Label(["User", "Username"]) + FieldGroup(2))
    + ([Rep(NonLetter, 0)] + Label(["Pass", "Password"]) + FieldGroup(3))

  /** A pattern whose every match sets groups 1, 2 and 3. */
  predicate ThreeGroups(prog: seq<Node>) {
    1 in MustOpen(prog, 0) && 2 in MustOpen(prog, 0) && 3 in MustOpen(prog, 0)
  }

  lemma LabelOpens(words: seq<string>, sep: Class)
    ensures TriesInside([Rep(sep, 0)]) && MustOpen([Rep(sep, 0)], 0) == {}
    ensures TriesInside(Label(words)) && MustOpen(Label(words), 0) == {}
  {
    assert MustOpen(Label(words), 1) == {};
  }

  lemma GroupOpens(g: nat)
    ensures TriesInside(HostGroup(g)) && MustOpen(HostGroup(g), 0) == {g}
    ensures TriesInside(FieldGroup(g)) && MustOpen(FieldGroup(g), 0) == {g}
  {
    var h := HostGroup(g);
    assert MustOpen(h, 6) == {};
    assert MustOpen(h, 5) == {};
    assert MustOpen(h, 4) == {};
    assert MustOpen(h, 3) == {};
    assert MustOpen(h, 2) == {};
    assert MustOpen(h, 1) == {};
    var f := FieldGroup(g);
    assert MustOpen(f, 3) == {};
    assert MustOpen(f, 2) == {};
    assert MustOpen(f, 1) == {};
  }

  /** A pattern of three parts opens, on every path, what each part opens. */
  lemma Parts(a: seq<Node>, b: seq<Node>, c: seq<Node>)
    requires TriesInside(a) && TriesInside(b) && TriesInside(c)
    ensures MustOpen((a + b) + c, 0) == MustOpen(a, 0) + MustOpen(b, 0) + MustOpen(c, 0)
  {
    Concat(a, b);
    Concat(a + b, c);
  }

  lemma HostFirstGroups()
    ensures ThreeGroups(HostFirst.prog)
  {
    var hw := ["IP", "Host", "Server", "\U{5730}\U{5740}"];
    var uw := ["User", "Username", "\U{7528}\U{6237}", "\U{7528}\U{6237}\U{540D}"];
    var pw := ["Pass", "Password", "\U{5BC6}\U{7801}"];
    LabelOpens(hw, FieldSep);
    LabelOpens(uw, FieldSep);
    LabelOpens(pw, FieldSep);
    GroupOpens(1);
    GroupOpens(2);
    GroupOpens(3);
    Concat(Label(hw), HostGroup(1));
    Concat([Rep(FieldSep, 0)], Label(uw));
    Concat([Rep(FieldSep, 0)] + Label(uw), FieldGroup(2));
    Concat([Rep(FieldSep, 0)], Label(pw));
    Concat([Rep(FieldSep, 0)] + Label(pw), FieldGroup(3));
    Parts(Label(hw) + HostGroup(1), [Rep(FieldSep, 0)] + Label(uw) + FieldGroup(2), [Rep(FieldSep, 0)] + Label(pw) + FieldGroup(3));
  }

  lemma UserFirstGroups()
    ensures ThreeGroups(UserFirst.prog)
  {
    var uw := ["User", "Username"];
    var pw := ["Pass", "Password"];
    var hw := ["IP", "Host"];
    LabelOpens(uw, FieldSep);
    LabelOpens(pw, FieldSep);
    LabelOpens(hw, FieldSep);
    GroupOpens(1);
    GroupOpens(2);
    GroupOpens(3);
    Concat(Label(uw), FieldGroup(1));
    Concat([Rep(FieldSep, 0)], Label(pw));
    Concat([Rep(FieldSep, 0)] + Label(pw), FieldGroup(2));
    Concat([Rep(FieldSep, 0)], Label(hw));
    Concat([Rep(FieldSep, 0)] + Label(hw), HostGroup(3));
    Parts(Label(uw) + FieldGroup(1), [Rep(FieldSep, 0)] + Label(pw) + FieldGroup(2), [Rep(FieldSep, 0)] + Label(hw) + HostGroup(3));
  }

  lemma HostUserPassGroups()
    ensures ThreeGroups(HostUserPassPattern)
  {
    var hw := ["Host", "Server"];
    var uw := ["User", "Username"];
    var pw := ["Pass", "Password"];
    LabelOpens(hw, NonLetter);
    LabelOpens(uw, NonLetter);
    LabelOpens(pw, NonLetter);
    GroupOpens(1);
    GroupOpens(2);
    GroupOpens(3);
    Concat(Label(hw), HostGroup(1));
    Concat([Rep(NonLetter, 0)], Label(uw));
    Concat([Rep(NonLetter, 0)] + Label(uw), FieldGroup(2));
    Concat([Rep(NonLetter, 0)], Label(pw));
    Concat([Rep(NonLetter, 0)] + Label(pw), FieldGroup(3));
    Parts(Label(hw) + HostGroup(1), [Rep(NonLetter, 0)] + Label(uw) + FieldGroup(2), [Rep(NonLetter, 0)] + Label(pw) + FieldGroup(3));
  }

  /** A match of a pattern with three groups records all three inside the text. */
  lemma SearchGroups(prog: seq<Node>, t: string)
    requires ThreeGroups(prog) && Search(prog, t, 0).Some?
    ensures var caps := Search(prog, t, 0).value; Bounded(caps, |t|) && 1 in caps && 2 in caps && 3 in caps
  {
    SearchOpens(prog, t, 0);
  }

  /** The candidate a labelled pattern's match yields. */
  function FromGroups(p: Labelled, t: string, caps: Captures): (c: Credentials)
    requires Bounded(caps, |t|) && 1 in caps && 2 in caps && 3 in caps
    ensures Contains(t, c.host) && Contains(t, c.username) && Contains(t, c.password)
  {
    var g1, g2, g3 := Group(t, caps, 1), Group(t, caps, 2), Group(t, caps, 3);
    SliceContained(t, caps[1].start, caps[1].end);
    SliceContained(t, caps[2].start, caps[2].end);
    SliceContained(t, caps[3].start, caps[3].end);
    if p.mentionsUser then Credentials(g3, g1, g2) else Credentials(g1, g2, g3)
  }

  /** Strategy 1's loop: the candidate of the first pattern that matches
      anywhere in the text, whether or not it will pass validation. */
  function FirstLabelled(ps: seq<Labelled>, t: string): (r: Option<Credentials>)
    requires forall i :: 0 <= i < |ps| ==> ThreeGroups(ps[i].prog)
    ensures r.None? <==> forall i :: 0 <= i < |ps| ==> Search(ps[i].prog, t, 0).None?
    ensures r.Some? ==> Contains(t, r.value.host) && Contains(t, r.value.username) && Contains(t, r.value.password)
  {
    if ps == [] then None
    else
      var m := Search(ps[0].prog, t, 0);
      if m.Some? then
        SearchGroups(ps[0].prog, t);
        Some(FromGroups(ps[0], t, m.value))
      else
        var r := FirstLabelled(ps[1..], t);
        assert forall i :: 1 <= i < |ps| ==> ps[i] == ps[1..][i - 1];
        r
  }

  function IpUserPass(t: string): (r: Option<Credentials>)
    ensures r.Some? ==> Contains(t, r.value.host)
  {
    HostFirstGroups();
    UserFirstGroups();
    FirstLabelled(IpUserPassPatterns, t)
  }

  function HostUserPass(t: string): (r: Option<Credentials>)
    ensures r.Some? <==> Search(HostUserPassPattern, t, 0).Some?
    ensures r.Some? ==> Contains(t, r.value.host)
  {
    var m := Search(HostUserPassPattern, t, 0);
    if m.None? then None
    else
      HostUserPassGroups();
      SearchGroups(HostUserPassPattern, t);
      var caps := m.value;
      SliceContained(t, caps[1].start, caps[1].end);
      Some(Credentials(Group(t, caps, 1), Group(t, caps, 2), Group(t, caps, 3)))
  }

  // ---------------------------------------------------------------------
  // What the groups of strategies 1 and 2 hold

  /** `[\d\.]+(?::\d+)?`: a run of digits and dots, then optionally ':' and a
      run of digits. */
  predicate NumericHost(h: string) {
    || (h != [] && AllIn(h, DigitOrDot))
    || exists i :: 0 < i < |h| - 1 && h[i] == ':' && AllIn(h[..i], DigitOrDot) && AllIn(h[i + 1..], Digit)
  }

  /** `[^\s,;]+`: a non-empty run with no whitespace, ',' or ';'. */
  predicate FieldText(h: string) {
    h != [] && AllIn(h, FieldChar)
  }

  /** A run through a field group at `pc` records, as group `g`, a run of
      field characters from where the group opened. */
  lemma FieldGroupText(prog: seq<Node>, pc: nat, g: nat, s: string, pos: nat, caps: Captures)
    requires pc + 3 <= |prog| && prog[pc..pc + 3] == FieldGroup(g) && Untouched(prog, pc + 3, g) && pos <= |s|
    requires Match(prog, pc, s, pos, caps).Some?
    ensures var r := Match(prog, pc, s, pos, caps).value;
      g in r && pos == r[g].start <= r[g].end <= |s| && FieldText(s[r[g].start..r[g].end])
  {
    var f := prog[pc..pc + 3];
    assert prog[pc] == f[0] == Open(g) && prog[pc + 1] == f[1] == Rep(FieldChar, 1) && prog[pc + 2] == f[2] == Close(g);
    var c1 := caps[g := Span(pos, pos)];
    OpenStep(prog, pc, g, s, pos, caps);
    var m := RepTaken(prog, pc + 1, s, pos, c1);
    var c2 := c1[g := Span(pos, pos + m)];
    CloseStep(prog, pc + 2, g, s, pos + m, c1);
    MatchKeeps(prog, pc + 3, s, pos + m, c2, g);
    RunPrefix(FieldChar, s, pos, m);
  }

  /** A run through a host group at `pc` records, as group `g`, digits and
      dots, optionally followed by ':' and digits, from where the group opened. */
  lemma HostGroupText(prog: seq<Node>, pc: nat, g: nat, s: string, pos: nat, caps: Captures)
    requires pc + 6 <= |prog| && prog[pc..pc + 6] == HostGroup(g) && Untouched(prog, pc + 6, g) && pos <= |s|
    requires Match(prog, pc, s, pos, caps).Some?
    ensures var r := Match(prog, pc, s, pos, caps).value;
      g in r && pos == r[g].start <= r[g].end <= |s| && NumericHost(s[r[g].start..r[g].end])
  {
    var f := prog[pc..pc + 6];
    assert prog[pc] == f[0] == Open(g) && prog[pc + 1] == f[1] == Rep(DigitOrDot, 1) && prog[pc + 2] == f[2] == Try(2);
    assert prog[pc + 3] == f[3] == Alt([":"]) && prog[pc + 4] == f[4] == Rep(Digit, 1) && prog[pc + 5] == f[5] == Close(g);
    var c1 := caps[g := Span(pos, pos)];
    OpenStep(prog, pc, g, s, pos, caps);
    var m := RepTaken(prog, pc + 1, s, pos, c1);
    RunPrefix(DigitOrDot, s, pos, m);
    var e := PortTail(prog, pc + 2, g, s, pos + m, c1);
    NumericHostOf(s, pos, pos + m, e);
  }

  /** From the optional `:\d+` of a host group on: the group closes either
      where the digits and dots ended, or after ':' and a run of digits. */
  lemma PortTail(prog: seq<Node>, pc: nat, g: nat, s: string, a: nat, caps: Captures) returns (e: nat)
    requires pc + 4 <= |prog| && prog[pc] == Try(2) && prog[pc + 1] == Alt([":"]) && prog[pc + 2] == Rep(Digit, 1)
    requires prog[pc + 3] == Close(g) && Untouched(prog, pc + 4, g) && g in caps && caps[g].start <= a <= |s|
    requires Match(prog, pc, s, a, caps).Some?
    ensures var r := Match(prog, pc, s, a, caps).value; g in r && r[g] == Span(caps[g].start, e)
    ensures a <= e <= |s| && (e == a || (s[a] == ':' && a + 1 < e && AllIn(s[a + 1..e], Digit)))
  {
    TryStep(prog, pc, 2, s, a, caps);
    if Match(prog, pc + 1, s, a, caps).Some? {
      var j := AltTaken(prog, pc + 1, s, a, caps);
      assert prog[pc + 1].words[j] == ":";
      WordAtChar(s, a, ":", 0);
      var m := RepTaken(prog, pc + 2, s, a + 1, caps);
      RunPrefix(Digit, s, a + 1, m);
      e := a + 1 + m;
      CloseStep(prog, pc + 3, g, s, e, caps);
      MatchKeeps(prog, pc + 4, s, e, caps[g := Span(caps[g].start, e)], g);
    } else {
      e := a;
      CloseStep(prog, pc + 3, g, s, a, caps);
      MatchKeeps(prog, pc + 4, s, a, caps[g := Span(caps[g].start, a)], g);
    }
  }

  /** Digits and dots, then nothing or ':' and digits, make a numeric host. */
  lemma NumericHostOf(s: string, pos: nat, a: nat, e: nat)
    requires pos < a <= e <= |s| && AllIn(s[pos..a], DigitOrDot)
    requires e == a || (s[a] == ':' && a + 1 < e && AllIn(s[a + 1..e], Digit))
    ensures NumericHost(s[pos..e])
  {
    if e > a {
      var h := s[pos..e];
      var i := a - pos;
      assert h[..i] == s[pos..a] && h[i] == ':' && h[i + 1..] == s[a + 1..e];
    }
  }

  /** In a search for `a`, a host group `g`, then `b`, where the optional
      groups of `a` stay inside it and `b` does not touch group `g`, that
      group holds digits and dots, optionally followed by ':' and digits. */
  lemma SearchHostGroup(a: seq<Node>, g: nat, b: seq<Node>, s: string, caps: Captures)
    requires TriesInside(a) && g !in GroupsIn(b) && Search(a + HostGroup(g) + b, s, 0) == Some(caps)
    ensures g in caps && caps[g].start <= caps[g].end <= |s| && NumericHost(s[caps[g].start..caps[g].end])
  {
    var prog := a + HostGroup(g) + b;
    Middle(a, HostGroup(g), b);
    JumpsInPart(a, HostGroup(g) + b);
    UntouchedAfter(a + HostGroup(g), b, g);
    var p := SearchStart(prog, s, 0);
    var q, c := Advance(prog, 0, |a|, s, p, map[]);
    HostGroupText(prog, |a|, g, s, q, c);
  }

  /** The same for a field group: it holds a run of field characters. */
  lemma SearchFieldGroup(a: seq<Node>, g: nat, b: seq<Node>, s: string, caps: Captures)
    requires TriesInside(a) && g !in GroupsIn(b) && Search(a + FieldGroup(g) + b, s, 0) == Some(caps)
    ensures g in caps && caps[g].start <= caps[g].end <= |s| && FieldText(s[caps[g].start..caps[g].end])
  {
    var prog := a + FieldGroup(g) + b;
    Middle(a, FieldGroup(g), b);
    JumpsInPart(a, FieldGroup(g) + b);
    UntouchedAfter(a + FieldGroup(g), b, g);
    var p := SearchStart(prog, s, 0);
    var q, c := Advance(prog, 0, |a|, s, p, map[]);
    FieldGroupText(prog, |a|, g, s, q, c);
  }

  /** The middle part of a three-part program, cut out again. */
  lemma Middle(a: seq<Node>, m: seq<Node>, b: seq<Node>)
    ensures a + m + b == a + (m + b) && (a + m + b)[|a|..|a| + |m|] == m
  {
    assert (a + m + b)[|a|..|a| + |m|] == m;
  }

  /** The groups each piece of the labelled patterns opens or closes. */
  lemma PieceGroups(ws: seq<string>, sep: Class, g: nat)
    ensures GroupsIn(Label(ws)) == {} && GroupsIn([Rep(sep, 0)]) == {}
    ensures GroupsIn(HostGroup(g)) == {g} && GroupsIn(FieldGroup(g)) == {g}
  {
    var l := Label(ws);
    assert l[1..][1..] == [] && GroupsIn(l[1..]) == {};
    assert [Rep(sep, 0)][1..] == [];
    var h := HostGroup(g);
    assert h[1..][1..][1..][1..][1..][1..] == [];
    assert GroupsIn(h[1..][1..][1..][1..][1..]) == {g};
    assert GroupsIn(h[1..][1..][1..][1..]) == {g};
    assert GroupsIn(h[1..][1..][1..]) == {g};
    assert GroupsIn(h[1..][1..]) == {g};
    var f := FieldGroup(g);
    assert f[1..][1..][1..] == [];
    assert GroupsIn(f[1..][1..]) == {g};
  }

  /** The layout of the host-first pattern and of strategy 2's pattern:
      host label, host group 1, user label, field group 2, password label,
      field group 3, with runs of `sep` before the second and third labels. */
  function HostLed(hw: seq<string>, uw: seq<string>, pw: seq<string>, sep: Class): seq<Node> {
    (Label(hw) + HostGroup(1)) + ([Rep(sep, 0)] + Label(uw) + FieldGroup(2)) + ([Rep(sep, 0)] + Label(pw) + FieldGroup(3))
  }

  /** The layout of the user-first pattern: user label, field group 1,
      password label, field group 2, host label, host group 3. */
  function UserLed(uw: seq<string>, pw: seq<string>, hw: seq<string>, sep: Class): seq<Node> {
    (Label(uw) + FieldGroup(1)) + ([Rep(sep, 0)] + Label(pw) + FieldGroup(2)) + ([Rep(sep, 0)] + Label(hw) + HostGroup(3))
  }

  /** Concatenation regroups. */
  lemma Regroup(a: seq<Node>, b: seq<Node>, c: seq<Node>)
    ensures a + (b + c) == (a + b) + c
  {
  }

  /** A run of separators, a label and a group touch that group only. */
  lemma SegmentGroups(sep: Class, ws: seq<string>, g: nat)
    ensures TriesInside([Rep(sep, 0)] + Label(ws))
    ensures GroupsIn([Rep(sep, 0)] + Label(ws) + FieldGroup(g)) == {g}
    ensures GroupsIn([Rep(sep, 0)] + Label(ws) + HostGroup(g)) == {g}
  {
    LabelOpens(ws, sep);
    Concat([Rep(sep, 0)], Label(ws));
    PieceGroups(ws, sep, g);
    GroupsInAppend([Rep(sep, 0)], Label(ws));
    GroupsInAppend([Rep(sep, 0)] + Label(ws), FieldGroup(g));
    GroupsInAppend([Rep(sep, 0)] + Label(ws), HostGroup(g));
  }

  /** Every match of a host-led pattern has group 1 of digits and dots with
      an optional port, and groups 2 and 3 of field characters. */
  lemma HostLedFields(hw: seq<string>, uw: seq<string>, pw: seq<string>, sep: Class, s: string, caps: Captures)
    requires Search(HostLed(hw, uw, pw, sep), s, 0) == Some(caps)
    ensures Bounded(caps, |s|) && 1 in caps && 2 in caps && 3 in caps
    ensures NumericHost(Group(s, caps, 1)) && FieldText(Group(s, caps, 2)) && FieldText(Group(s, caps, 3))
  {
    var a, b := HostLedCut1(hw, uw, pw, sep);
    SearchHostGroup(a, 1, b, s, caps);
    a, b := HostLedCut2(hw, uw, pw, sep);
    SearchFieldGroup(a, 2, b, s, caps);
    a, b := HostLedCut3(hw, uw, pw, sep);
    SearchFieldGroup(a, 3, b, s, caps);
  }

  /** The host-led layout cut around its host group. */
  lemma HostLedCut1(hw: seq<string>, uw: seq<string>, pw: seq<string>, sep: Class) returns (a: seq<Node>, b: seq<Node>)
    ensures HostLed(hw, uw, pw, sep) == a + HostGroup(1) + b && TriesInside(a) && 1 !in GroupsIn(b)
  {
    var b2, b3 := [Rep(sep, 0)] + Label(uw) + FieldGroup(2), [Rep(sep, 0)] + Label(pw) + FieldGroup(3);
    SegmentGroups(sep, uw, 2);
    SegmentGroups(sep, pw, 3);
    GroupsInAppend(b2, b3);
    LabelOpens(hw, sep);
    Regroup(Label(hw) + HostGroup(1), b2, b3);
    a, b := Label(hw), b2 + b3;
  }

  /** The host-led layout cut around its username group. */
  lemma HostLedCut2(hw: seq<string>, uw: seq<string>, pw: seq<string>, sep: Class) returns (a: seq<Node>, b: seq<Node>)
    ensures HostLed(hw, uw, pw, sep) == a + FieldGroup(2) + b && TriesInside(a) && 2 !in GroupsIn(b)
  {
    var a1, a2, b3 := Label(hw) + HostGroup(1), [Rep(sep, 0)] + Label(uw), [Rep(sep, 0)] + Label(pw) + FieldGroup(3);
    LabelOpens(hw, sep);
    GroupOpens(1);
    Concat(Label(hw), HostGroup(1));
    SegmentGroups(sep, uw, 2);
    SegmentGroups(sep, pw, 3);
    Concat(a1, a2);
    Regroup(a1, a2, FieldGroup(2));
    a, b := a1 + a2, b3;
  }

  /** The host-led layout cut around its password group. */
  lemma HostLedCut3(hw: seq<string>, uw: seq<string>, pw: seq<string>, sep: Class) returns (a: seq<Node>, b: seq<Node>)
    ensures HostLed(hw, uw, pw, sep) == a + FieldGroup(3) + b && TriesInside(a) && 3 !in GroupsIn(b)
  {
    var a1, a2, a3 := Label(hw) + HostGroup(1), [Rep(sep, 0)] + Label(uw) + FieldGroup(2), [Rep(sep, 0)] + Label(pw);
    LabelOpens(hw, sep);
    GroupOpens(1);
    GroupOpens(2);
    Concat(Label(hw), HostGroup(1));
    SegmentGroups(sep, uw, 2);
    Concat([Rep(sep, 0)] + Label(uw), FieldGroup(2));
    SegmentGroups(sep, pw, 3);
    Concat(a1, a2);
    Concat(a1 + a2, a3);
    Regroup(a1 + a2, a3, FieldGroup(3));
    assert a1 + a2 + a3 + FieldGroup(3) + [] == a1 + a2 + a3 + FieldGroup(3);
    assert GroupsIn([]) == {};
    a, b := a1 + a2 + a3, [];
  }

  /** Every match of a user-led pattern has groups 1 and 2 of field
      characters and group 3 of digits and dots with an optional port. */
  lemma UserLedFields(uw: seq<string>, pw: seq<string>, hw: seq<string>, sep: Class, s: string, caps: Captures)
    requires Search(UserLed(uw, pw, hw, sep), s, 0) == Some(caps)
    ensures Bounded(caps, |s|) && 1 in caps && 2 in caps && 3 in caps
    ensures FieldText(Group(s, caps, 1)) && FieldText(Group(s, caps, 2)) && NumericHost(Group(s, caps, 3))
  {
    var a, b := UserLedCut1(uw, pw, hw, sep);
    SearchFieldGroup(a, 1, b, s, caps);
    a, b := UserLedCut2(uw, pw, hw, sep);
    SearchFieldGroup(a, 2, b, s, caps);
    a, b := UserLedCut3(uw, pw, hw, sep);
    SearchHostGroup(a, 3, b, s, caps);
  }

  /** The user-led layout cut around its username group. */
  lemma UserLedCut1(uw: seq<string>, pw: seq<string>, hw: seq<string>, sep: Class) returns (a: seq<Node>, b: seq<Node>)
    ensures UserLed(uw, pw, hw, sep) == a + FieldGroup(1) + b && TriesInside(a) && 1 !in GroupsIn(b)
  {
    var b2, b3 := [Rep(sep, 0)] + Label(pw) + FieldGroup(2), [Rep(sep, 0)] + Label(hw) + HostGroup(3);
    SegmentGroups(sep, pw, 2);
    SegmentGroups(sep, hw, 3);
    GroupsInAppend(b2, b3);
    LabelOpens(uw, sep);
    Regroup(Label(uw) + FieldGroup(1), b2, b3);
    a, b := Label(uw), b2 + b3;
  }

  /** The user-led layout cut around its password group. */
  lemma UserLedCut2(uw: seq<string>, pw: seq<string>, hw: seq<string>, sep: Class) returns (a: seq<Node>, b: seq<Node>)
    ensures UserLed(uw, pw, hw, sep) == a + FieldGroup(2) + b && TriesInside(a) && 2 !in GroupsIn(b)
  {
    var a1, a2, b3 := Label(uw) + FieldGroup(1), [Rep(sep, 0)] + Label(pw), [Rep(sep, 0)] + Label(hw) + HostGroup(3);
    LabelOpens(uw, sep);
    GroupOpens(1);
    Concat(Label(uw), FieldGroup(1));
    SegmentGroups(sep, pw, 2);
    SegmentGroups(sep, hw, 3);
    Concat(a1, a2);
    Regroup(a1, a2, FieldGroup(2));
    a, b := a1 + a2, b3;
  }

  /** The user-led layout cut around its host group. */
  lemma UserLedCut3(uw: seq<string>, pw: seq<string>, hw: seq<string>, sep: Class) returns (a: seq<Node>, b: seq<Node>)
    ensures UserLed(uw, pw, hw, sep) == a + HostGroup(3) + b && TriesInside(a) && 3 !in GroupsIn(b)
  {
    var a1, a2, a3 := Label(uw) + FieldGroup(1), [Rep(sep, 0)] + Label(pw) + FieldGroup(2), [Rep(sep, 0)] + Label(hw);
    LabelOpens(uw, sep);
    GroupOpens(1);
    GroupOpens(2);
    Concat(Label(uw), FieldGroup(1));
    SegmentGroups(sep, pw, 2);
    Concat([Rep(sep, 0)] + Label(pw), FieldGroup(2));
    SegmentGroups(sep, hw, 3);
    Concat(a1, a2);
    Concat(a1 + a2, a3);
    Regroup(a1 + a2, a3, HostGroup(3));
    assert a1 + a2 + a3 + HostGroup(3) + [] == a1 + a2 + a3 + HostGroup(3);
    assert GroupsIn([]) == {};
    a, b := a1 + a2 + a3, [];
  }

  /** Strategy 1's loop returns the candidate of the first pattern that
      matches: a later pattern is tried only when every earlier one found
      nothing. */
  lemma {:induction false} FirstLabelledAt(ps: seq<Labelled>, t: string, i: nat)
    requires forall j :: 0 <= j < |ps| ==> ThreeGroups(ps[j].prog)
    requires i < |ps| && Search(ps[i].prog, t, 0).Some?
    requires forall j :: 0 <= j < i ==> Search(ps[j].prog, t, 0).None?
    ensures var caps := Search(ps[i].prog, t, 0).value;
      Bounded(caps, |t|) && 1 in caps && 2 in caps && 3 in caps
      && FirstLabelled(ps, t) == Some(FromGroups(ps[i], t, caps))
  {
    SearchGroups(ps[i].prog, t);
    if i > 0 {
      assert forall j :: 0 <= j < |ps| - 1 ==> ps[1..][j] == ps[j + 1];
      FirstLabelledAt(ps[1..], t, i - 1);
    }
  }

  /** A text of field characters holds no newline. */
  lemma FieldTextPlain(h: string)
    requires FieldText(h)
    ensures '\n' !in h
  {
    assert IsSpace('\n');
  }

  /** Without a newline, `re.match` of the anchored host pattern is the host shape. */
  lemma PlainDollarHost(h: string)
    requires '\n' !in h
    ensures DollarHost(h) <==> IsHostShape(h)
  {
    if DollarHost(h) {
      DollarHostPlain(h);
    }
  }

  /** When the host-first pattern matches, strategy 1 reads its groups in the
      order of the pattern that names the user first: the username is the
      text after the host label (digits and dots, optionally a port), the
      password the text after the user label, and the host the text after
      the password label. */
  lemma HostFirstFields(t: string, caps: Captures)
    requires Search(HostFirst.prog, t, 0) == Some(caps)
    ensures Bounded(caps, |t|) && 1 in caps && 2 in caps && 3 in caps
    ensures IpUserPass(t) == Some(Credentials(Group(t, caps, 3), Group(t, caps, 1), Group(t, caps, 2)))
    ensures NumericHost(Group(t, caps, 1)) && FieldText(Group(t, caps, 2)) && FieldText(Group(t, caps, 3))
  {
    PickedFirst(t, caps);
    var hw, uw, pw := HostFirstLayout();
    HostLedFields(hw, uw, pw, FieldSep, t, caps);
  }

  lemma HostFirstLayout() returns (hw: seq<string>, uw: seq<string>, pw: seq<string>)
    ensures HostFirst.prog == HostLed(hw, uw, pw, FieldSep)
  {
    hw := ["IP", "Host", "Server", "\U{5730}\U{5740}"];
    uw := ["User", "Username", "\U{7528}\U{6237}", "\U{7528}\U{6237}\U{540D}"];
    pw := ["Pass", "Password", "\U{5BC6}\U{7801}"];
  }

  lemma UserFirstLayout() returns (uw: seq<string>, pw: seq<string>, hw: seq<string>)
    ensures UserFirst.prog == UserLed(uw, pw, hw, FieldSep)
  {
    uw, pw, hw := ["User", "Username"], ["Pass", "Password"], ["IP", "Host"];
  }

  /** A pattern that mentions the user yields (group 3, group 1, group 2). */
  lemma FirstLabelledUser(ps: seq<Labelled>, t: string, i: nat, caps: Captures)
    requires forall j :: 0 <= j < |ps| ==> ThreeGroups(ps[j].prog)
    requires i < |ps| && ps[i].mentionsUser && Search(ps[i].prog, t, 0) == Some(caps)
    requires forall j :: 0 <= j < i ==> Search(ps[j].prog, t, 0).None?
    ensures Bounded(caps, |t|) && 1 in caps && 2 in caps && 3 in caps
    ensures FirstLabelled(ps, t) == Some(Credentials(Group(t, caps, 3), Group(t, caps, 1), Group(t, caps, 2)))
  {
    FirstLabelledAt(ps, t, i);
  }

  /** Strategy 1 on a text where its first pattern matches. Both of its
      patterns mention the user, so both map groups (3, 1, 2). */
  lemma PickedFirst(t: string, caps: Captures)
    requires Search(HostFirst.prog, t, 0) == Some(caps)
    ensures Bounded(caps, |t|) && 1 in caps && 2 in caps && 3 in caps
    ensures IpUserPass(t) == Some(Credentials(Group(t, caps, 3), Group(t, caps, 1), Group(t, caps, 2)))
  {
    PatternsGroups();
    FirstInList(t, caps);
    FirstLabelledUser(IpUserPassPatterns, t, 0, caps);
  }

  lemma FirstInList(t: string, caps: Captures)
    requires Search(HostFirst.prog, t, 0) == Some(caps)
    ensures 0 < |IpUserPassPatterns| && IpUserPassPatterns[0].mentionsUser
    ensures Search(IpUserPassPatterns[0].prog, t, 0) == Some(caps)
  {
  }

  /** Strategy 1 on a text where only its second pattern matches. */
  lemma PickedSecond(t: string, caps: Captures)
    requires Search(HostFirst.prog, t, 0).None? && Search(UserFirst.prog, t, 0) == Some(caps)
    ensures Bounded(caps, |t|) && 1 in caps && 2 in caps && 3 in caps
    ensures IpUserPass(t) == Some(Credentials(Group(t, caps, 3), Group(t, caps, 1), Group(t, caps, 2)))
  {
    PatternsGroups();
    SecondInList(t, caps);
    FirstLabelledUser(IpUserPassPatterns, t, 1, caps);
  }

  lemma SecondInList(t: string, caps: Captures)
    requires Search(HostFirst.prog, t, 0).None? && Search(UserFirst.prog, t, 0) == Some(caps)
    ensures 1 < |IpUserPassPatterns| && IpUserPassPatterns[1].mentionsUser
    ensures Search(IpUserPassPatterns[1].prog, t, 0) == Some(caps)
    ensures forall j :: 0 <= j < 1 ==> Search(IpUserPassPatterns[j].prog, t, 0).None?
  {
  }

  lemma PatternsGroups()
    ensures forall j :: 0 <= j < |IpUserPassPatterns| ==> ThreeGroups(IpUserPassPatterns[j].prog)
  {
    HostFirstGroups();
    UserFirstGroups();
  }

  /** So a host-first match passes validation exactly when the text after
      the password label has the host shape; the real host never does. */
  lemma HostFirstAccepted(t: string, caps: Captures)
    requires Search(HostFirst.prog, t, 0) == Some(caps)
    ensures Bounded(caps, |t|) && 3 in caps
    ensures Accepted(IpUserPass(t)) <==> IsHostShape(Group(t, caps, 3))
  {
    HostFirstFields(t, caps);
    ShiftedAccepted(IpUserPass(t), t, caps);
  }

  /** Groups read as (3, 1, 2), with a numeric group 1 and a field-text
      group 2 and 3, are accepted exactly when group 3 has the host shape. */
  lemma ShiftedAccepted(o: Option<Credentials>, t: string, caps: Captures)
    requires Bounded(caps, |t|) && 1 in caps && 2 in caps && 3 in caps
    requires o == Some(Credentials(Group(t, caps, 3), Group(t, caps, 1), Group(t, caps, 2)))
    requires NumericHost(Group(t, caps, 1)) && FieldText(Group(t, caps, 2)) && FieldText(Group(t, caps, 3))
    ensures Accepted(o) <==> IsHostShape(Group(t, caps, 3))
  {
    FieldTextPlain(Group(t, caps, 3));
    PlainDollarHost(Group(t, caps, 3));
  }

  /** When only the user-first pattern matches, strategy 1 maps its groups
      as that pattern lays them out. */
  lemma UserFirstFields(t: string, caps: Captures)
    requires Search(HostFirst.prog, t, 0).None? && Search(UserFirst.prog, t, 0) == Some(caps)
    ensures Bounded(caps, |t|) && 1 in caps && 2 in caps && 3 in caps
    ensures IpUserPass(t) == Some(Credentials(Group(t, caps, 3), Group(t, caps, 1), Group(t, caps, 2)))
    ensures FieldText(Group(t, caps, 1)) && FieldText(Group(t, caps, 2)) && NumericHost(Group(t, caps, 3))
  {
    PickedSecond(t, caps);
    var uw, pw, hw := UserFirstLayout();
    UserLedFields(uw, pw, hw, FieldSep, t, caps);
  }

  /** A user-first match passes validation exactly when its host validates. */
  lemma UserFirstAccepted(t: string, caps: Captures)
    requires Search(HostFirst.prog, t, 0).None? && Search(UserFirst.prog, t, 0) == Some(caps)
    ensures Bounded(caps, |t|) && 3 in caps
    ensures Accepted(IpUserPass(t)) <==> DollarHost(Group(t, caps, 3))
  {
    UserFirstFields(t, caps);
  }

  /** Strategy 2 reads host, username and password from groups 1, 2 and 3. */
  lemma HostUserPassFields(t: string, caps: Captures)
    requires Search(HostUserPassPattern, t, 0) == Some(caps)
    ensures Bounded(caps, |t|) && 1 in caps && 2 in caps && 3 in caps
    ensures HostUserPass(t) == Some(Credentials(Group(t, caps, 1), Group(t, caps, 2), Group(t, caps, 3)))
    ensures NumericHost(Group(t, caps, 1)) && FieldText(Group(t, caps, 2)) && FieldText(Group(t, caps, 3))
  {
    var hw := ["Host", "Server"];
    var uw := ["User", "Username"];
    var pw := ["Pass", "Password"];
    assert HostUserPassPattern == HostLed(hw, uw, pw, NonLetter);
    HostLedFields(hw, uw, pw, NonLetter, t, caps);
  }

  /** A strategy 2 match passes validation exactly when its host validates. */
  lemma HostUserPassAccepted(t: string, caps: Captures)
    requires Search(HostUserPassPattern, t, 0) == Some(caps)
    ensures Bounded(caps, |t|) && 1 in caps
    ensures Accepted(HostUserPass(t)) <==> DollarHost(Group(t, caps, 1))
  {
    HostUserPassFields(t, caps);
  }

  // ---------------------------------------------------------------------
  // Strategy 3: tokens after separator clean-up

  /** `[➡️→▶️🔹•\-]`: the arrow, the emoji variation selector, the right
      arrow, the play sign, the small blue diamond, the bullet and '-'. */
  predicate IsArrowOrDash(c: char) {
    c == '\U{27A1}' || c == '\U{FE0F}' || c == '\U{2192}' || c == '\U{25B6}' || c == '\U{1F539}' || c == '\U{2022}' || c == '-'
  }

  /** `re.match` with `^\d{1,3}\.\d{1,3}\.\d{1,3}\.\d{1,3}(?::\d+)?$` on a
      token, with two tokens after it. */
  predicate HostWithTwoAfter(parts: seq<string>, i: nat)
    requires i < |parts|
  {
    DollarHost(parts[i]) && i + 2 < |parts|
  }

  /** The first index from `i` on of a host token with two tokens after it. */
  function FirstHostToken(parts: seq<string>, i: nat): (r: Option<nat>)
    requires i <= |parts|
    ensures r.Some? ==> i <= r.value < |parts| && HostWithTwoAfter(parts, r.value)
    ensures r.Some? ==> forall j :: i <= j < r.value ==> !HostWithTwoAfter(parts, j)
    ensures r.None? ==> forall j :: i <= j < |parts| ==> !HostWithTwoAfter(parts, j)
    decreases |parts| - i
  {
    if i == |parts| then None
    else if HostWithTwoAfter(parts, i) then Some(i)
    else FirstHostToken(parts, i + 1)
  }

  function WithSeparators(t: string): (r: Option<Credentials>)
    ensures r.Some? ==> Validate(r.value) && NoSpace(r.value.host)
    ensures r.Some? ==> Contains(SquashRuns(t, IsArrowOrDash), r.value.host)
  {
    var parts := Words(SquashRuns(t, IsArrowOrDash));
    if |parts| >= 3 then
      match FirstHostToken(parts, 0)
      case None => None
      case Some(i) =>
        WordsContained(SquashRuns(t, IsArrowOrDash), i);
        Some(Credentials(parts[i], parts[i + 1], parts[i + 2]))
    else None
  }

  // ---------------------------------------------------------------------
  // Strategy 4: the first word-bounded host and its neighbours

  /** `\b\d{1,3}\.\d{1,3}\.\d{1,3}\.\d{1,3}(?::\d+)?\b` tried at `p`: the
      length of the match, read on the text from `p` on. The port is taken
      when a word boundary follows its digits; otherwise the match ends with
      the quad, if a word boundary follows that. */
  function HostMatchAt(t: string, p: nat): Option<nat>
    requires p <= |t|
  {
    if p > 0 && IsWordChar(t[p - 1]) then None
    else
      var u := t[p..];
      match QuadEnd(u, 0)
      case None => None
      case Some(e) =>
        var m := if e < |u| && u[e] == ':' then DigitRun(u, e + 1) else 0;
        if m >= 1 && (e + 1 + m == |u| || !IsWordChar(u[e + 1 + m])) then Some(e + 1 + m)
        else if e == |u| || !IsWordChar(u[e]) then Some(e)
        else None
  }

  /** What a match at `p` covers is a host of the shape. */
  lemma HostMatchShape(t: string, p: nat, n: nat)
    requires p <= |t| && HostMatchAt(t, p) == Some(n)
    ensures p + n <= |t| && IsHostShape(t[p..p + n])
  {
    var u := t[p..];
    var e := HostMatchParts(t, p);
    assert t[p..p + n] == u[..n];
    CutShape(u, n, e);
  }

  /** A match at `p` ends at the end `e` of the quad, or after ':' and the
      whole digit run that follows it. */
  lemma HostMatchParts(t: string, p: nat) returns (e: nat)
    requires p <= |t| && HostMatchAt(t, p).Some?
    ensures var u, n := t[p..], HostMatchAt(t, p).value;
      QuadEnd(u, 0) == Some(e) && n <= |u|
      && (n == e || (e < |u| && u[e] == ':' && DigitRun(u, e + 1) >= 1 && n == e + 1 + DigitRun(u, e + 1)))
  {
    e := QuadEnd(t[p..], 0).value;
  }

  /** `re.finditer(...)`'s first match: the leftmost start from `p` on and its length. */
  function FirstHostMatch(t: string, p: nat): (r: Option<(nat, nat)>)
    requires p <= |t|
    ensures r.Some? ==> p <= r.value.0 <= |t| && HostMatchAt(t, r.value.0) == Some(r.value.1)
    ensures r.Some? ==> forall q :: p <= q < r.value.0 ==> HostMatchAt(t, q).None?
    ensures r.None? ==> forall q :: p <= q <= |t| ==> HostMatchAt(t, q).None?
    decreases |t| - p
  {
    match HostMatchAt(t, p)
    case Some(n) => Some((p, n))
    case None => if p == |t| then None else FirstHostMatch(t, p + 1)
  }

  /** The first index from `i` on of a token that contains `m` and has a
      token on each side. */
  function FirstNeighbours(parts: seq<string>, m: string, i: nat): (r: Option<nat>)
    requires i <= |parts|
    ensures r.Some? ==> i <= r.value && 0 < r.value && r.value + 1 < |parts| && Contains(parts[r.value], m)
    ensures r.Some? ==> forall j :: i <= j < r.value ==> !(Contains(parts[j], m) && 0 < j && j + 1 < |parts|)
    ensures r.None? ==> forall j :: i <= j < |parts| ==> !(Contains(parts[j], m) && 0 < j && j + 1 < |parts|)
    decreases |parts| - i
  {
    if i == |parts| then None
    else if Contains(parts[i], m) && 0 < i && i + 1 < |parts| then Some(i)
    else FirstNeighbours(parts, m, i + 1)
  }

  /** Up to 50 characters either side of the match: `text[max(0, start-50):min(len, end+50)]`. */
  function Window(t: string, a: nat, b: nat): string
    requires a <= b <= |t|
  {
    t[if a >= 50 then a - 50 else 0..if b + 50 <= |t| then b + 50 else |t|]
  }

  function Simple(t: string): (r: Option<Credentials>)
  {
    match FirstHostMatch(t, 0)
    case None => None
    case Some((a, n)) =>
      var m := t[a..a + n];
      var parts := Words(Window(t, a, a + n));
      match FirstNeighbours(parts, m, 0)
      case None => None
      case Some(i) => Some(Credentials(m, parts[i - 1], parts[i + 1]))
  }

  /** Every candidate of strategy 4 passes validation. */
  lemma SimpleValid(t: string)
    requires Simple(t).Some?
    ensures Validate(Simple(t).value) && IsHostShape(Simple(t).value.host)
    ensures Contains(t, Simple(t).value.host)
  {
    var a, n := SimpleParts(t);
    var c := Simple(t).value;
    SliceContained(t, a, a + n);
    DollarHostOf(c.host);
  }

  /** Where the candidate of strategy 4 comes from: the host match at `a` of
      length `n`, and two words of its window. */
  lemma SimpleParts(t: string) returns (a: nat, n: nat)
    requires Simple(t).Some?
    ensures a <= |t| && HostMatchAt(t, a) == Some(n) && a + n <= |t|
    ensures Simple(t).value.host == t[a..a + n] && IsHostShape(t[a..a + n])
    ensures |Simple(t).value.username| >= 1 && |Simple(t).value.password| >= 1
  {
    var r := FirstHostMatch(t, 0).value;
    a, n := r.0, r.1;
    HostMatchShape(t, a, n);
  }

  // ---------------------------------------------------------------------
  // The validation gate and the cascade

  /** The host matches `^\d{1,3}\.\d{1,3}\.\d{1,3}\.\d{1,3}(?::\d+)?$` and
      neither username nor password is empty. */
  predicate Validate(c: Credentials) {
    DollarHost(c.host) && |c.username| >= 1 && |c.password| >= 1
  }

  datatype Strategy = IpUserPassStrategy | HostUserPassStrategy | WithSeparatorsStrategy | SimpleStrategy

  /** The order in which the strategies are tried. */
  const Order: seq<Strategy> := [IpUserPassStrategy, HostUserPassStrategy, WithSeparatorsStrategy, SimpleStrategy]

  function Run(k: Strategy, t: string): Option<Credentials> {
    match k
    case IpUserPassStrategy => IpUserPass(t)
    case HostUserPassStrategy => HostUserPass(t)
    case WithSeparatorsStrategy => WithSeparators(t)
    case SimpleStrategy => Simple(t)
  }

  /** A candidate that exists and passes the gate. */
  predicate Accepted(o: Option<Credentials>) {
    o.Some? && Validate(o.value)
  }

  /** The first accepted candidate of the strategies `ks`, in order; a
      rejected candidate never ends the search. */
  function Cascade(t: string, ks: seq<Strategy>): (r: Option<Credentials>)
    ensures r.Some? ==> exists i :: (0 <= i < |ks| && Run(ks[i], t) == r && Accepted(r)
      && forall j :: 0 <= j < i ==> !Accepted(Run(ks[j], t)))
    ensures r.None? <==> forall i :: 0 <= i < |ks| ==> !Accepted(Run(ks[i], t))
  {
    if ks == [] then None
    else
      var c := Run(ks[0], t);
      if Accepted(c) then c
      else
        var r := Cascade(t, ks[1..]);
        assert forall i :: 1 <= i < |ks| ==> ks[i] == ks[1..][i - 1];
        if r.Some? then
          var i :| 0 <= i < |ks[1..]| && Run(ks[1..][i], t) == r && Accepted(r)
            && forall j :: 0 <= j < i ==> !Accepted(Run(ks[1..][j], t));
          assert Run(ks[i + 1], t) == r;
          r
        else r
  }

  /** `CredentialExtractor.extract`. */
  function Extract(text: string): Option<Credentials> {
    Cascade(Preprocess(text), Order)
  }

  // ---------------------------------------------------------------------
  // What every answer looks like

  /** An accepted candidate's host has the host shape, and the dotted quad
      that begins it occurs in the text the strategy read. */
  lemma AcceptedHost(k: Strategy, t: string) returns (q: string)
    requires '\n' !in t && Accepted(Run(k, t))
    ensures IsHostShape(Run(k, t).value.host)
    ensures IsQuad(q) && Contains(t, q) && StartsWith(Run(k, t).value.host, q)
  {
    var h := Run(k, t).value.host;
    match k
    case IpUserPassStrategy =>
      ContainsNoChar(t, h, '\n');
      DollarHostPlain(h);
      q := HostQuadIn(t, h);
    case HostUserPassStrategy =>
      ContainsNoChar(t, h, '\n');
      DollarHostPlain(h);
      q := HostQuadIn(t, h);
    case WithSeparatorsStrategy =>
      assert IsSpace('\n');
      DollarHostPlain(h);
      q := HostQuadIn(SquashRuns(t, IsArrowOrDash), h);
      QuadDigitsAndDots(q);
      SquashContainsBack(t, IsArrowOrDash, q);
    case SimpleStrategy =>
      SimpleValid(t);
      q := HostQuadIn(t, h);
  }

  /** Normalised text holds no newline. */
  lemma NormalisedNoNewline(t: string)
    requires Normalised(t)
    ensures '\n' !in t
  {
    if '\n' in t {
      var i :| 0 <= i < |t| && t[i] == '\n';
      assert IsSpace(t[i]);
    }
  }

  /** Every answer has a host of the shape `^\d{1,3}(\.\d{1,3}){3}(:\d+)?$`
      (with no trailing newline) and a non-empty username and password. */
  lemma ExtractShape(text: string)
    ensures Extract(text).Some? ==>
      (IsHostShape(Extract(text).value.host)
       && |Extract(text).value.username| >= 1 && |Extract(text).value.password| >= 1)
  {
    var t := Preprocess(text);
    var r := Extract(text);
    if r.Some? {
      PreprocessNormalises(text);
      NormalisedNoNewline(t);
      var i :| 0 <= i < |Order| && Run(Order[i], t) == r && Accepted(r);
      var _ := AcceptedHost(Order[i], t);
    }
  }

  /** A quad that occurs in the preprocessed text occurs in the original. */
  lemma QuadBeforePreprocess(text: string, q: string)
    requires IsQuad(q) && Contains(Preprocess(text), q)
    ensures Contains(text, q)
  {
    QuadDigitsAndDots(q);
    var a := SquashRuns(text, IsSpace);
    var b := ReplaceChar(a, FullWidthColon, ':');
    var c := ReplaceChar(b, EnDash, '-');
    var d := ReplaceChar(c, EmDash, '-');
    StripContainsBack(d, q);
    ReplaceCharContainsBack(c, EmDash, '-', q);
    ReplaceCharContainsBack(b, EnDash, '-', q);
    ReplaceCharContainsBack(a, FullWidthColon, ':', q);
    SquashContainsBack(text, IsSpace, q);
  }

  /** Text in which no dotted quad occurs yields no credentials. */
  lemma NoQuadNoCredentials(text: string)
    ensures !HasQuadSubstring(text) ==> Extract(text).None?
  {
    var t := Preprocess(text);
    var r := Extract(text);
    if r.Some? {
      PreprocessNormalises(text);
      NormalisedNoNewline(t);
      var i :| 0 <= i < |Order| && Run(Order[i], t) == r && Accepted(r);
      var q := AcceptedHost(Order[i], t);
      QuadBeforePreprocess(text, q);
      QuadInText(text, q);
    }
  }
}
