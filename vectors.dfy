/**
 * Two worked inputs that show how the cascade's quirks decide the answer.
 *
 * "IP: 1.2.3.4 User: admin Pass: pw" is matched by the host-first pattern of
 * strategy 1, whose groups are then read as (password, host, username); the
 * rotated candidate fails the gate and strategy 3 answers from tokens.
 *
 * "Host: 1.2.3.4 Username: admin Password: pw" is matched by both labelled
 * strategies with `Pass` read as the password label, so the password is
 * "word:"; strategy 1 again rotates the fields and strategy 2 answers.
 *
 * The matcher is followed node by node from the end of each match backwards.
 * The texts are written as concatenations of short pieces (`V1Pieces`,
 * `V2Pieces`), which keeps looking up a character cheap for the verifier.
 */
module Vectors {
  import opened Text
  import opened HostShape
  import opened Backtrack
  import opened Extractor

  /** The host-first pattern, in four pieces of five nodes. */
  const HostFirstPieces: seq<Node> :=
    ([Alt(["IP", "Host", "Server", "\U{5730}\U{5740}"]), Rep(LabelSep, 0), Open(1), Rep(DigitOrDot, 1), Try(2)]
     + [Alt([":"]), Rep(Digit, 1), Close(1), Rep(FieldSep, 0), Alt(["User", "Username", "\U{7528}\U{6237}", "\U{7528}\U{6237}\U{540D}"])])
    + ([Rep(LabelSep, 0), Open(2), Rep(FieldChar, 1), Close(2), Rep(FieldSep, 0)]
       + [Alt(["Pass", "Password", "\U{5BC6}\U{7801}"]), Rep(LabelSep, 0), Open(3), Rep(FieldChar, 1), Close(3)])

  lemma HostFirstInPieces()
    ensures HostFirst.prog == HostFirstPieces
  {
  }

  // ---------------------------------------------------------------------
  // "IP: 1.2.3.4 User: admin Pass: pw"

  const V1: string := "IP: 1.2.3.4 User: admin Pass: pw"
  const V1Pieces: string := (("IP: " + "1.2.") + ("3.4 " + "User")) + ((": ad" + "min ") + ("Pass" + ": pw"))
  const V1Tokens: seq<string> := ["IP:", "1.2.3.4", "User:", "admin", "Pass:", "pw"]

  /** The groups the host-first pattern records on the first text. */
  const V1Caps: Captures := map[1 := Span(4, 11), 2 := Span(18, 23), 3 := Span(30, 32)]

  lemma V1Password(s: string)
    requires s == V1Pieces
    ensures Match(HostFirstPieces, 14, s, 23, map[1 := Span(4, 11), 2 := Span(18, 23)]) == Some(V1Caps)
  {
    var P := HostFirstPieces;
    var c2: Captures := map[1 := Span(4, 11), 2 := Span(18, 23)];
    var c3 := V1Caps;
    assert Match(P, 20, s, 32, c3) == Some(c3);
    assert c2[3 := Span(30, 30)][3 := Span(30, 32)] == c3;
    assert Match(P, 19, s, 32, c2[3 := Span(30, 30)]) == Some(c3);
    assert ClassRun(FieldChar, s, 30) == 2;
    assert Match(P, 18, s, 30, c2[3 := Span(30, 30)]) == Some(c3);
    assert Match(P, 17, s, 30, c2) == Some(c3);
    assert ClassRun(LabelSep, s, 30) == 0;
    assert ClassRun(LabelSep, s, 28) == 2;
    assert Match(P, 16, s, 28, c2) == Some(c3);
    assert WordAt(s, 24, "Pass");
    assert Match(P, 15, s, 24, c2) == Some(c3);
    assert ClassRun(FieldSep, s, 23) == 1;
    assert Match(P, 14, s, 23, c2) == Some(c3);
  }

  lemma V1UserValue(s: string)
    requires s == V1Pieces
    ensures Match(HostFirstPieces, 11, s, 18, map[1 := Span(4, 11)]) == Some(V1Caps)
  {
    var P := HostFirstPieces;
    var c1: Captures := map[1 := Span(4, 11)];
    var c3 := V1Caps;
    V1Password(s);
    assert c1[2 := Span(18, 18)][2 := Span(18, 23)] == map[1 := Span(4, 11), 2 := Span(18, 23)];
    assert Match(P, 13, s, 23, c1[2 := Span(18, 18)]) == Some(c3);
    assert ClassRun(FieldChar, s, 22) == 1;
    assert ClassRun(FieldChar, s, 20) == 3;
    assert ClassRun(FieldChar, s, 18) == 5;
    assert Match(P, 12, s, 18, c1[2 := Span(18, 18)]) == Some(c3);
  }

  lemma V1Username(s: string)
    requires s == V1Pieces
    ensures Match(HostFirstPieces, 7, s, 11, map[1 := Span(4, 4)]) == Some(V1Caps)
  {
    var P := HostFirstPieces;
    var c1: Captures := map[1 := Span(4, 11)];
    var c3 := V1Caps;
    V1UserValue(s);
    assert ClassRun(LabelSep, s, 18) == 0;
    assert ClassRun(LabelSep, s, 16) == 2;
    assert Match(P, 10, s, 16, c1) == Some(c3);
    assert WordAt(s, 12, "User");
    assert Match(P, 9, s, 12, c1) == Some(c3);
    assert ClassRun(FieldSep, s, 11) == 1;
    assert Match(P, 8, s, 11, c1) == Some(c3);
    assert map[1 := Span(4, 4)][1 := Span(4, 11)] == c1;
    assert Match(P, 7, s, 11, map[1 := Span(4, 4)]) == Some(c3);
  }

  lemma V1HostFirst(s: string)
    requires s == V1Pieces
    ensures Search(HostFirstPieces, s, 0) == Some(V1Caps)
  {
    var P := HostFirstPieces;
    var c0: Captures := map[1 := Span(4, 4)];
    var c3 := V1Caps;
    V1Username(s);
    assert MatchAlt(P, 5, 0, s, 11, c0) == None;
    assert Match(P, 5, s, 11, c0) == None;
    assert Match(P, 4, s, 11, c0) == Some(c3);
    assert ClassRun(DigitOrDot, s, 10) == 1;
    assert ClassRun(DigitOrDot, s, 8) == 3;
    assert ClassRun(DigitOrDot, s, 6) == 5;
    assert ClassRun(DigitOrDot, s, 4) == 7;
    assert Match(P, 3, s, 4, c0) == Some(c3);
    assert Match(P, 2, s, 4, map[]) == Some(c3);
    assert ClassRun(LabelSep, s, 4) == 0;
    assert ClassRun(LabelSep, s, 2) == 2;
    assert Match(P, 1, s, 2, map[]) == Some(c3);
    assert WordAt(s, 0, "IP");
    assert Match(P, 0, s, 0, map[]) == Some(c3);
  }

  /** Strategy 1 finds the host-first pattern and reads its groups as
      (password, host, username); the host "pw" fails the gate. */
  lemma V1IpUserPass(s: string)
    requires s == V1Pieces
    ensures IpUserPass(s) == Some(Credentials("pw", "1.2.3.4", "admin"))
    ensures !Accepted(IpUserPass(s))
  {
    HostFirstInPieces();
    V1HostFirst(s);
    assert s[30..32] == "pw";
    assert s[4..11] == "1.2.3.4";
    assert s[18..23] == "admin";
  }

  /** No character of the text is, ignoring case, `c`. */
  predicate Lacks(s: string, c: char) {
    forall k :: 0 <= k < |s| ==> LowerChar(s[k]) != c
  }

  lemma LacksBoth(s: string, lower: char, upper: char)
    requires 'a' <= lower <= 'z' && upper as int == lower as int - 32
    requires lower !in s && upper !in s
    ensures Lacks(s, lower)
  {
    forall k | 0 <= k < |s| ensures LowerChar(s[k]) != lower {
      assert s[k] in s;
    }
  }

  lemma V1LacksH(s: string)
    requires s == V1Pieces
    ensures Lacks(s, 'h')
  {
    assert 'h' !in s && 'H' !in s;
    LacksBoth(s, 'h', 'H');
  }

  lemma V1LacksV(s: string)
    requires s == V1Pieces
    ensures Lacks(s, 'v')
  {
    assert 'v' !in s && 'V' !in s;
    LacksBoth(s, 'v', 'V');
  }

  /** Strategy 2 finds nothing: neither "Host" nor "Server" occurs. */
  lemma V1HostUserPass(s: string)
    requires s == V1Pieces
    ensures HostUserPass(s) == None
  {
    var P := HostUserPassPattern;
    var ws := ["Host", "Server"];
    assert P[0] == Alt(ws);
    V1LacksH(s);
    V1LacksV(s);
    forall p, i | 0 <= p <= |s| && 0 <= i < |ws| ensures !WordAt(s, p, ws[i]) {
      if i == 0 { NoWordWithout(s, p, "Host", 0); } else { NoWordWithout(s, p, "Server", 3); }
    }
    SearchNoLead(P, s, 0);
  }

  /** The text is its six tokens joined by single spaces. */
  lemma V1Joined(s: string)
    requires s == V1Pieces
    ensures s == Join(V1Tokens, " ") && Spaceless(V1Tokens)
  {
    V1JoinShape();
    V1PiecesShape(s);
    V1Spaceless();
  }

  lemma V1Spaceless()
    ensures Spaceless(V1Tokens)
  {
    var T := V1Tokens;
    assert NoSpace(T[0]) && NoSpace(T[1]) && NoSpace(T[2]);
    assert NoSpace(T[3]) && NoSpace(T[4]) && NoSpace(T[5]);
  }

  lemma V1JoinShape()
    ensures Join(V1Tokens, " ") == "IP:" + " " + ("1.2.3.4" + " " + ("User:" + " " + ("admin" + " " + ("Pass:" + " " + "pw"))))
  {
    var T := V1Tokens;
    assert T[1..][1..][1..][1..][1..] == ["pw"];
  }

  lemma V1PiecesShape(s: string)
    requires s == V1Pieces
    ensures s == "IP:" + " " + ("1.2.3.4" + " " + ("User:" + " " + ("admin" + " " + ("Pass:" + " " + "pw"))))
  {
  }

  /** "1.2.3.4" is a dotted quad and "IP:" is not. */
  lemma V1HostToken()
    ensures IsQuad("1.2.3.4") && IsHostShape("1.2.3.4")
    ensures !DollarHost("IP:")
  {
    var h := "1.2.3.4";
    assert DigitRun(h, 7) == 0 && DigitRun(h, 6) == 1;
    assert DigitRun(h, 5) == 0 && DigitRun(h, 4) == 1;
    assert DigitRun(h, 3) == 0 && DigitRun(h, 2) == 1;
    assert DigitRun(h, 1) == 0 && DigitRun(h, 0) == 1;
    assert DottedEnd(h, 5, 1) == Some(7);
    assert DottedEnd(h, 3, 2) == Some(7);
    assert DottedEnd(h, 1, 3) == Some(7);
    assert QuadEnd(h, 0) == Some(7);
    assert DigitRun("IP:", 0) == 0;
  }

  lemma V1NoArrowsA(s: string)
    requires s == V1Pieces
    ensures '-' !in s && '\U{27A1}' !in s && '\U{FE0F}' !in s
  {
  }

  lemma V1NoArrowsB(s: string)
    requires s == V1Pieces
    ensures '\U{2192}' !in s && '\U{25B6}' !in s
  {
  }

  lemma V1NoArrowsC(s: string)
    requires s == V1Pieces
    ensures '\U{1F539}' !in s && '\U{2022}' !in s
  {
  }

  lemma V1NoArrows(s: string)
    requires s == V1Pieces
    ensures SquashRuns(s, IsArrowOrDash) == s
  {
    V1NoArrowsA(s);
    V1NoArrowsB(s);
    V1NoArrowsC(s);
    forall i | 0 <= i < |s| ensures !IsArrowOrDash(s[i]) {
      assert s[i] in s;
    }
    SquashAbsent(s, IsArrowOrDash);
  }

  /** Strategy 3 reads the first host token and the two after it. */
  lemma V1WithSeparators(s: string)
    requires s == V1Pieces
    ensures WithSeparators(s) == Some(Credentials("1.2.3.4", "User:", "admin"))
  {
    var T := V1Tokens;
    V1NoArrows(s);
    V1Joined(s);
    WordsJoin(T);
    V1HostToken();
    assert !HostWithTwoAfter(T, 0) && HostWithTwoAfter(T, 1);
    assert FirstHostToken(T, 0) == Some(1);
  }

  lemma V1NoWideChars(s: string)
    requires s == V1Pieces
    ensures FullWidthColon !in s && EnDash !in s && EmDash !in s
  {
  }

  /** The text is already in the shape preprocessing gives. */
  lemma V1Preprocessed(s: string)
    requires s == V1Pieces
    ensures Preprocess(s) == s
  {
    V1Joined(s);
    JoinSpacing(V1Tokens);
    V1NoWideChars(s);
    NormalisedFixed(s);
  }

  lemma V1IsPieces()
    ensures V1 == V1Pieces
  {
  }

  /** The cascade answers with strategy 3 when the first two are rejected
      and strategy 3 is accepted. */
  lemma CascadeThird(t: string)
    requires !Accepted(Run(IpUserPassStrategy, t)) && !Accepted(Run(HostUserPassStrategy, t))
    requires Accepted(Run(WithSeparatorsStrategy, t))
    ensures Cascade(t, Order) == Run(WithSeparatorsStrategy, t)
  {
    assert Order[1..][1..][0] == WithSeparatorsStrategy;
  }

  /** The documented example "IP: H User: U Pass: P" does not come back as
      {H, U, P}: strategy 1's candidate is rotated and rejected, strategy 2
      finds nothing, and strategy 3 takes the label "User:" for the username
      and "admin" for the password. */
  lemma V1Extract()
    ensures Extract(V1) == Some(Credentials("1.2.3.4", "User:", "admin"))
  {
    V1IsPieces();
    V1Answer(V1Pieces);
  }

  lemma V1Answer(s: string)
    requires s == V1Pieces
    ensures Extract(s) == Some(Credentials("1.2.3.4", "User:", "admin"))
  {
    V1Preprocessed(s);
    V1IpUserPass(s);
    V1HostUserPass(s);
    V1WithSeparators(s);
    V1HostToken();
    ThirdWins(s, Credentials("1.2.3.4", "User:", "admin"));
  }

  /** A text that preprocessing leaves alone, on which strategies 1 and 2
      give nothing acceptable and strategy 3 gives an accepted candidate,
      is answered with that candidate. */
  lemma ThirdWins(s: string, c: Credentials)
    requires Preprocess(s) == s && !Accepted(IpUserPass(s)) && HostUserPass(s) == None
    requires WithSeparators(s) == Some(c) && Validate(c)
    ensures Extract(s) == Some(c)
  {
    CascadeThird(s);
  }

  // ---------------------------------------------------------------------
  // "Host: 1.2.3.4 Username: admin Password: pw"

  const V2: string := "Host: 1.2.3.4 Username: admin Password: pw"
  const V2Pieces: string :=
    ((("Host" + ": 1.") + ("2.3." + "4 Us")) + (("erna" + "me: ") + ("admi" + "n Pa"))) + (("sswo" + "rd: ") + "pw")
  const V2Tokens: seq<string> := ["Host:", "1.2.3.4", "Username:", "admin", "Password:", "pw"]
  const V2Caps: Captures := map[1 := Span(6, 13), 2 := Span(24, 29), 3 := Span(34, 39)]

  /** Every password label starts with 'p' (either case) or with the first
      character of the Chinese label. */
  predicate PassWords(ws: seq<string>) {
    forall i :: 0 <= i < |ws| ==> ws[i] != [] && (LowerChar(ws[i][0]) == 'p' || ws[i][0] == '\U{5BC6}')
  }

  /** What the host-first pattern of strategy 1 and the pattern of strategy
      2 have in common, node by node: they differ only in their label lists
      and in the class `sep` of the gaps between the fields. */
  predicate LabelledShape(P: seq<Node>, sep: Class) {
    && |P| == 20
    && P[0].Alt? && |P[0].words| >= 2 && (P[0].words[0] == "Host" || (P[0].words[0] == "IP" && P[0].words[1] == "Host"))
    && P[1] == Rep(LabelSep, 0) && P[2] == Open(1) && P[3] == Rep(DigitOrDot, 1) && P[4] == Try(2)
    && P[5] == Alt([":"]) && P[6] == Rep(Digit, 1) && P[7] == Close(1) && P[8] == Rep(sep, 0)
    && P[9].Alt? && |P[9].words| >= 2 && P[9].words[0] == "User" && P[9].words[1] == "Username"
    && P[10] == Rep(LabelSep, 0) && P[11] == Open(2) && P[12] == Rep(FieldChar, 1) && P[13] == Close(2)
    && P[14] == Rep(sep, 0) && P[15].Alt? && P[15].words != [] && P[15].words[0] == "Pass" && PassWords(P[15].words)
    && P[16] == Rep(LabelSep, 0) && P[17] == Open(3) && P[18] == Rep(FieldChar, 1) && P[19] == Close(3)
  }

  lemma HostFirstShape()
    ensures LabelledShape(HostFirstPieces, FieldSep)
  {
  }

  /** Strategy 2's pattern, in four pieces of five nodes. */
  const HostUserPassPieces: seq<Node> :=
    ([Alt(["Host", "Server"]), Rep(LabelSep, 0), Open(1), Rep(DigitOrDot, 1), Try(2)]
     + [Alt([":"]), Rep(Digit, 1), Close(1), Rep(NonLetter, 0), Alt(["User", "Username"])])
    + ([Rep(LabelSep, 0), Open(2), Rep(FieldChar, 1), Close(2), Rep(NonLetter, 0)]
       + [Alt(["Pass", "Password"]), Rep(LabelSep, 0), Open(3), Rep(FieldChar, 1), Close(3)])

  lemma HostUserPassInPieces()
    ensures HostUserPassPattern == HostUserPassPieces
  {
  }

  lemma HostUserPassShape()
    ensures LabelledShape(HostUserPassPieces, NonLetter)
  {
  }

  /** The gap after a prefix of "name:" ends by position 24, for either class. */
  lemma V2GapRuns(s: string)
    requires s == V2Pieces
    ensures forall q :: 19 <= q <= 23 ==> q + ClassRun(FieldSep, s, q) <= 24 && q + ClassRun(NonLetter, s, q) <= 24
  {
    assert ClassRun(FieldSep, s, 24) == 0 && ClassRun(FieldSep, s, 23) == 1;
    assert ClassRun(FieldSep, s, 22) == 0 && ClassRun(FieldSep, s, 21) == 0;
    assert ClassRun(FieldSep, s, 20) == 0 && ClassRun(FieldSep, s, 19) == 0;
    assert ClassRun(NonLetter, s, 24) == 0 && ClassRun(NonLetter, s, 23) == 1 && ClassRun(NonLetter, s, 22) == 2;
    assert ClassRun(NonLetter, s, 21) == 0 && ClassRun(NonLetter, s, 20) == 0 && ClassRun(NonLetter, s, 19) == 0;
  }

  /** No password label starts anywhere in "ame: a", positions 19 to 24. */
  lemma V2NoPassNear(s: string, ws: seq<string>)
    requires s == V2Pieces && PassWords(ws)
    ensures forall p, i :: 19 <= p <= 24 && 0 <= i < |ws| ==> !WordAt(s, p, ws[i])
  {
    forall p, i | 19 <= p <= 24 && 0 <= i < |ws| ensures !WordAt(s, p, ws[i]) {
      WordAtChar(s, p, ws[i], 0);
      assert LowerChar(s[p]) != 'p' && s[p] != '\U{5BC6}';
    }
  }

  /** The password group reads "word:". */
  lemma V2PassValue(P: seq<Node>, sep: Class, s: string)
    requires LabelledShape(P, sep) && s == V2Pieces
    ensures Match(P, 17, s, 34, map[1 := Span(6, 13), 2 := Span(24, 29)]) == Some(V2Caps)
  {
    var c2: Captures := map[1 := Span(6, 13), 2 := Span(24, 29)];
    var c3 := V2Caps;
    assert Match(P, 20, s, 39, c3) == Some(c3);
    assert c2[3 := Span(34, 34)][3 := Span(34, 39)] == c3;
    assert Match(P, 19, s, 39, c2[3 := Span(34, 34)]) == Some(c3);
    assert ClassRun(FieldChar, s, 39) == 0;
    assert ClassRun(FieldChar, s, 37) == 2;
    assert ClassRun(FieldChar, s, 35) == 4;
    assert ClassRun(FieldChar, s, 34) == 5;
    assert Match(P, 18, s, 34, c2[3 := Span(34, 34)]) == Some(c3);
  }

  /** From the gap before the password label on: "Pass" is taken at 30, so
      the password group reads on from "word:". */
  lemma V2Password(P: seq<Node>, sep: Class, s: string)
    requires LabelledShape(P, sep) && s == V2Pieces && ClassRun(sep, s, 29) == 1
    ensures Match(P, 14, s, 29, map[1 := Span(6, 13), 2 := Span(24, 29)]) == Some(V2Caps)
  {
    var c2: Captures := map[1 := Span(6, 13), 2 := Span(24, 29)];
    var c3 := V2Caps;
    V2PassValue(P, sep, s);
    assert ClassRun(LabelSep, s, 34) == 0;
    assert Match(P, 16, s, 34, c2) == Some(c3);
    assert WordAt(s, 30, "Pass");
    assert Match(P, 15, s, 30, c2) == Some(c3);
    assert Match(P, 14, s, 29, c2) == Some(c3);
  }

  /** From the username label's separators on, after "Username". */
  lemma V2Username(P: seq<Node>, sep: Class, s: string)
    requires LabelledShape(P, sep) && s == V2Pieces && ClassRun(sep, s, 29) == 1
    ensures Match(P, 10, s, 22, map[1 := Span(6, 13)]) == Some(V2Caps)
  {
    var c1: Captures := map[1 := Span(6, 13)];
    var c3 := V2Caps;
    V2Password(P, sep, s);
    assert c1[2 := Span(24, 24)][2 := Span(24, 29)] == map[1 := Span(6, 13), 2 := Span(24, 29)];
    assert Match(P, 13, s, 29, c1[2 := Span(24, 24)]) == Some(c3);
    assert ClassRun(FieldChar, s, 29) == 0;
    assert ClassRun(FieldChar, s, 27) == 2;
    assert ClassRun(FieldChar, s, 25) == 4;
    assert ClassRun(FieldChar, s, 24) == 5;
    assert Match(P, 12, s, 24, c1[2 := Span(24, 24)]) == Some(c3);
    assert Match(P, 11, s, 24, c1) == Some(c3);
    assert ClassRun(LabelSep, s, 24) == 0;
    assert ClassRun(LabelSep, s, 22) == 2;
    assert Match(P, 10, s, 22, c1) == Some(c3);
  }

  /** After "User" the username group takes a prefix of "name:", and no
      password label follows any of them. */
  lemma V2UserFails(P: seq<Node>, sep: Class, s: string)
    requires LabelledShape(P, sep) && s == V2Pieces && (sep == FieldSep || sep == NonLetter)
    ensures Match(P, 10, s, 18, map[1 := Span(6, 13)]) == None
  {
    var c1: Captures := map[1 := Span(6, 13)];
    var c := c1[2 := Span(18, 18)];
    var ws := P[15].words;
    V2GapRuns(s);
    V2NoPassNear(s, ws);
    var next := 13;
    forall q | 19 <= q <= 23 ensures Match(P, next, s, q, c) == None {
      LabelMiss(P, 13, s, q, c, sep, ws);
    }
    assert ClassRun(FieldChar, s, 23) == 0;
    assert ClassRun(FieldChar, s, 21) == 2;
    assert ClassRun(FieldChar, s, 19) == 4;
    assert ClassRun(FieldChar, s, 18) == 5;
    RepMiss(P, 12, next, 5, s, 18, c);
    assert Match(P, 12, s, 18, c) == None;
    assert Match(P, 11, s, 18, c1) == None;
    assert ClassRun(LabelSep, s, 18) == 0;
    assert Match(P, 10, s, 18, c1) == None;
  }

  lemma V2UserWords(s: string)
    requires s == V2Pieces
    ensures WordAt(s, 14, "User") && WordAt(s, 14, "Username")
  {
  }

  /** "User" is tried first and fails; "Username" then succeeds. */
  lemma V2UserLabel(P: seq<Node>, sep: Class, s: string)
    requires LabelledShape(P, sep) && s == V2Pieces && (sep == FieldSep || sep == NonLetter)
    requires ClassRun(sep, s, 29) == 1
    ensures Match(P, 9, s, 14, map[1 := Span(6, 13)]) == Some(V2Caps)
  {
    var c1: Captures := map[1 := Span(6, 13)];
    V2UserFails(P, sep, s);
    V2Username(P, sep, s);
    V2UserWords(s);
    var us := P[9].words;
    assert us[1] == "Username" && |us[1]| == 8;
    assert MatchAlt(P, 9, 1, s, 14, c1) == Some(V2Caps);
    assert us[0] == "User" && |us[0]| == 4;
    assert MatchAlt(P, 9, 0, s, 14, c1) == Some(V2Caps);
  }

  /** The host group takes "1.2.3.4" and no port; the gap follows. */
  lemma V2HostValue(P: seq<Node>, sep: Class, s: string)
    requires LabelledShape(P, sep) && s == V2Pieces && (sep == FieldSep || sep == NonLetter)
    requires ClassRun(sep, s, 29) == 1 && ClassRun(sep, s, 13) == 1
    ensures Match(P, 3, s, 6, map[1 := Span(6, 6)]) == Some(V2Caps)
  {
    var c0: Captures := map[1 := Span(6, 6)];
    var c1: Captures := map[1 := Span(6, 13)];
    var c3 := V2Caps;
    V2UserLabel(P, sep, s);
    assert Match(P, 8, s, 13, c1) == Some(c3);
    assert c0[1 := Span(6, 13)] == c1;
    assert Match(P, 7, s, 13, c0) == Some(c3);
    assert !WordAt(s, 13, ":");
    assert MatchAlt(P, 5, 1, s, 13, c0) == None;
    assert MatchAlt(P, 5, 0, s, 13, c0) == None;
    assert Match(P, 5, s, 13, c0) == None;
    assert Match(P, 4, s, 13, c0) == Some(c3);
    assert ClassRun(DigitOrDot, s, 13) == 0;
    assert ClassRun(DigitOrDot, s, 11) == 2;
    assert ClassRun(DigitOrDot, s, 9) == 4;
    assert ClassRun(DigitOrDot, s, 7) == 6;
    assert ClassRun(DigitOrDot, s, 6) == 7;
    assert Match(P, 3, s, 6, c0) == Some(c3);
  }

  /** The match starts with "Host" at 0, whichever label list the pattern has. */
  lemma V2Search(P: seq<Node>, sep: Class, s: string)
    requires LabelledShape(P, sep) && s == V2Pieces && (sep == FieldSep || sep == NonLetter)
    requires ClassRun(sep, s, 29) == 1 && ClassRun(sep, s, 13) == 1
    ensures Search(P, s, 0) == Some(V2Caps)
  {
    var c3 := V2Caps;
    V2HostValue(P, sep, s);
    assert Match(P, 2, s, 6, map[]) == Some(c3);
    assert ClassRun(LabelSep, s, 6) == 0;
    assert ClassRun(LabelSep, s, 4) == 2;
    assert Match(P, 1, s, 4, map[]) == Some(c3);
    var hs := P[0].words;
    assert WordAt(s, 0, "Host");
    if hs[0] == "Host" {
      assert MatchAlt(P, 0, 0, s, 0, map[]) == Some(c3);
    } else {
      assert !WordAt(s, 0, "IP");
      assert MatchAlt(P, 0, 1, s, 0, map[]) == Some(c3);
      assert MatchAlt(P, 0, 0, s, 0, map[]) == Some(c3);
    }
    assert Match(P, 0, s, 0, map[]) == Some(c3);
  }

  lemma V2Gaps(s: string)
    requires s == V2Pieces
    ensures ClassRun(FieldSep, s, 29) == 1 && ClassRun(FieldSep, s, 13) == 1
    ensures ClassRun(NonLetter, s, 29) == 1 && ClassRun(NonLetter, s, 13) == 1
  {
  }

  lemma V2Slices(s: string)
    requires s == V2Pieces
    ensures s[6..13] == "1.2.3.4" && s[24..29] == "admin" && s[34..39] == "word:"
  {
  }

  /** Strategy 1 matches with the host-first pattern and rotates the
      fields: the host it offers is "word:", which fails the gate. */
  lemma V2IpUserPass(s: string)
    requires s == V2Pieces
    ensures IpUserPass(s) == Some(Credentials("word:", "1.2.3.4", "admin"))
    ensures !Accepted(IpUserPass(s))
  {
    HostFirstInPieces();
    HostFirstShape();
    V2Gaps(s);
    V2Search(HostFirstPieces, FieldSep, s);
    V2Slices(s);
    assert !DollarHost("word:") by {
      assert DigitRun("word:", 0) == 0;
    }
  }

  /** Strategy 2 reads its groups in order; the password is "word:", since
      "Pass" is tried before "Password". */
  lemma V2HostUserPass(s: string)
    requires s == V2Pieces
    ensures HostUserPass(s) == Some(Credentials("1.2.3.4", "admin", "word:"))
    ensures Accepted(HostUserPass(s))
  {
    HostUserPassInPieces();
    HostUserPassShape();
    V2Gaps(s);
    V2Search(HostUserPassPieces, NonLetter, s);
    V2Slices(s);
    V1HostToken();
  }

  lemma V2JoinShape()
    ensures Join(V2Tokens, " ") == "Host:" + " " + ("1.2.3.4" + " " + ("Username:" + " " + ("admin" + " " + ("Password:" + " " + "pw"))))
  {
    var T := V2Tokens;
    assert T[1..][1..][1..][1..][1..] == ["pw"];
  }

  lemma V2PiecesShape(s: string)
    requires s == V2Pieces
    ensures s == "Host:" + " " + ("1.2.3.4" + " " + ("Username:" + " " + ("admin" + " " + ("Password:" + " " + "pw"))))
  {
  }

  lemma V2Spaceless()
    ensures Spaceless(V2Tokens)
  {
    var T := V2Tokens;
    assert NoSpace(T[0]) && NoSpace(T[1]) && NoSpace(T[2]);
    assert NoSpace(T[3]) && NoSpace(T[4]) && NoSpace(T[5]);
  }

  /** The text is its six tokens joined by single spaces. */
  lemma V2Joined(s: string)
    requires s == V2Pieces
    ensures s == Join(V2Tokens, " ") && Spaceless(V2Tokens)
  {
    V2JoinShape();
    V2PiecesShape(s);
    V2Spaceless();
  }

  lemma V2NoWideChars(s: string)
    requires s == V2Pieces
    ensures FullWidthColon !in s && EnDash !in s && EmDash !in s
  {
  }

  /** The text is already in the shape preprocessing gives. */
  lemma V2Preprocessed(s: string)
    requires s == V2Pieces
    ensures Preprocess(s) == s
  {
    V2Joined(s);
    JoinSpacing(V2Tokens);
    V2NoWideChars(s);
    NormalisedFixed(s);
  }

  lemma V2IsPieces()
    ensures V2 == V2Pieces
  {
    V2Thirds();
    assert V2 == "Host: 1.2.3.4 Us" + "ername: admin Pa" + "ssword: pw";
  }

  lemma V2Thirds()
    ensures ("Host" + ": 1.") + ("2.3." + "4 Us") == "Host: 1.2.3.4 Us"
    ensures ("erna" + "me: ") + ("admi" + "n Pa") == "ername: admin Pa"
    ensures ("sswo" + "rd: ") + "pw" == "ssword: pw"
  {
  }

  /** The cascade answers with strategy 2 when strategy 1 is rejected and
      strategy 2 is accepted. */
  lemma CascadeSecond(t: string)
    requires !Accepted(Run(IpUserPassStrategy, t)) && Accepted(Run(HostUserPassStrategy, t))
    ensures Cascade(t, Order) == Run(HostUserPassStrategy, t)
  {
    assert Order[1..][0] == HostUserPassStrategy;
  }

  /** The documented example "Host: H Username: U Password: P" comes back
      with "word:" as the password: both labelled patterns take "Pass" as the
      label, strategy 1's rotated candidate is rejected and strategy 2's is
      accepted. */
  lemma V2Extract()
    ensures Extract(V2) == Some(Credentials("1.2.3.4", "admin", "word:"))
  {
    V2IsPieces();
    V2Answer(V2Pieces);
  }

  lemma V2Answer(s: string)
    requires s == V2Pieces
    ensures Extract(s) == Some(Credentials("1.2.3.4", "admin", "word:"))
  {
    V2Preprocessed(s);
    V2IpUserPass(s);
    V2HostUserPass(s);
    CascadeSecond(s);
  }
}
