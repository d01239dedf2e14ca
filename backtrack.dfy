/**
 * The part of Python's `re.search(pattern, text, re.IGNORECASE)` that the
 * labelled-credential patterns use: case-insensitive literal alternatives
 * tried left to right, greedy `*`/`+` over one character class (longest run
 * first, then one character shorter at a time), a greedy optional group,
 * numbered capturing groups, and the search for the leftmost start.
 *
 * A pattern is a flat program. `Try(k)` stands for `(?:...)?` whose body is
 * the next `k` nodes: the matcher first runs on into the body, and only when
 * the rest of the pattern then fails does it skip the body.
 */
module Backtrack {
  import opened Text

  /** The character classes that occur in the patterns. */
  datatype Class =
    | LabelSep     // [\s:：\-]
    | DigitOrDot   // [\d\.]
    | Digit        // \d
    | FieldSep     // [\s,;\-]
    | FieldChar    // [^\s,;]
    | NonLetter    // [^a-zA-Z]

  predicate InClass(c: char, k: Class) {
    match k
    case LabelSep => IsSpace(c) || c == ':' || c == '\U{FF1A}' || c == '-'
    case DigitOrDot => IsDigit(c) || c == '.'
    case Digit => IsDigit(c)
    case FieldSep => IsSpace(c) || c == ',' || c == ';' || c == '-'
    case FieldChar => !(IsSpace(c) || c == ',' || c == ';')
    case NonLetter => !IsLetter(c)
  }

  datatype Node =
    | Alt(words: seq<string>)   // (?:w1|w2|...), ignoring ASCII case
    | Rep(cls: Class, min: nat) // cls* (min 0) or cls+ (min 1), greedy
    | Open(group: nat)          // start of capturing group
    | Close(group: nat)         // end of capturing group
    | Try(body: nat)            // greedy (?:...)? over the next `body` nodes

  datatype Span = Span(start: nat, end: nat)

  type Captures = map<nat, Span>

  /** Every recorded group lies inside the text read so far. */
  predicate Bounded(caps: Captures, pos: nat) {
    forall g :: g in caps ==> caps[g].start <= caps[g].end <= pos
  }

  /** `w` occurs at `pos` when ASCII case is ignored. */
  predicate WordAt(s: string, pos: nat, w: string)
    decreases |w|
  {
    pos + |w| <= |s| && (w == [] || (LowerChar(s[pos]) == LowerChar(w[0]) && WordAt(s, pos + 1, w[1..])))
  }

  /** Length of the run of class characters starting at `pos`. */
  function ClassRun(k: Class, s: string, pos: nat): (n: nat)
    requires pos <= |s|
    ensures pos + n <= |s|
    decreases |s| - pos
  {
    if pos < |s| && InClass(s[pos], k) then 1 + ClassRun(k, s, pos + 1) else 0
  }

  /** The groups that every successful run from `pc` to the end opens. */
  function MustOpen(prog: seq<Node>, pc: nat): set<nat>
    requires pc <= |prog|
    decreases |prog| - pc
  {
    if pc == |prog| then {}
    else match prog[pc]
      case Open(g) => {g} + MustOpen(prog, pc + 1)
      case Try(k) =>
        if pc + 1 + k <= |prog| then MustOpen(prog, pc + 1) * MustOpen(prog, pc + 1 + k)
        else MustOpen(prog, pc + 1)
      case _ => MustOpen(prog, pc + 1)
  }

  /** Every optional group's body lies inside the program. */
  predicate TriesInside(prog: seq<Node>) {
    forall i :: 0 <= i < |prog| && prog[i].Try? ==> i + 1 + prog[i].body <= |prog|
  }

  lemma {:induction false} MustOpenShift(a: seq<Node>, b: seq<Node>, j: nat)
    requires j <= |b|
    ensures MustOpen(a + b, |a| + j) == MustOpen(b, j)
    decreases |b| - j
  {
    if j < |b| {
      assert (a + b)[|a| + j] == b[j];
      MustOpenShift(a, b, j + 1);
      if b[j].Try? && j + 1 + b[j].body <= |b| { MustOpenShift(a, b, j + 1 + b[j].body); }
    }
  }

  lemma {:induction false} MustOpenAppend(a: seq<Node>, b: seq<Node>, pc: nat)
    requires pc <= |a| && TriesInside(a)
    ensures MustOpen(a + b, pc) == MustOpen(a, pc) + MustOpen(b, 0)
    decreases |a| - pc
  {
    if pc == |a| {
      MustOpenShift(a, b, 0);
    } else {
      assert (a + b)[pc] == a[pc];
      MustOpenAppend(a, b, pc + 1);
      if a[pc].Try? { MustOpenAppend(a, b, pc + 1 + a[pc].body); }
    }
  }

  /** A program made of two parts opens, on every path, the groups either
      part opens on every path. */
  lemma Concat(a: seq<Node>, b: seq<Node>)
    requires TriesInside(a) && TriesInside(b)
    ensures TriesInside(a + b) && MustOpen(a + b, 0) == MustOpen(a, 0) + MustOpen(b, 0)
  {
    MustOpenAppend(a, b, 0);
    forall i | 0 <= i < |a + b| && (a + b)[i].Try? ensures i + 1 + (a + b)[i].body <= |a + b| {
      if i >= |a| { assert (a + b)[i] == b[i - |a|]; }
    }
  }

  /** The first way, in backtracking order, that `prog[pc..]` matches `s` from
      `pos`, given the groups recorded so far; groups recorded inside the text
      read so far stay inside the text. */
  function Match(prog: seq<Node>, pc: nat, s: string, pos: nat, caps: Captures): (r: Option<Captures>)
    requires pc <= |prog| && pos <= |s|
    ensures Bounded(caps, pos) && r.Some? ==> Bounded(r.value, |s|)
    decreases |prog| - pc, 1, 0
  {
    if pc == |prog| then Some(caps)
    else match prog[pc]
      case Alt(ws) => MatchAlt(prog, pc, 0, s, pos, caps)
      case Rep(k, m) =>
        var n := ClassRun(k, s, pos);
        if n < m then None else MatchRep(prog, pc, n, s, pos, caps)
      case Open(g) => Match(prog, pc + 1, s, pos, caps[g := Span(pos, pos)])
      case Close(g) =>
        if g in caps then Match(prog, pc + 1, s, pos, caps[g := Span(caps[g].start, pos)]) else None
      case Try(k) =>
        var inside := Match(prog, pc + 1, s, pos, caps);
        if inside.Some? then inside
        else if pc + 1 + k <= |prog| then Match(prog, pc + 1 + k, s, pos, caps)
        else None
  }

  /** Alternative `i` and, should the rest of the pattern fail after it, the later ones. */
  function MatchAlt(prog: seq<Node>, pc: nat, i: nat, s: string, pos: nat, caps: Captures): (r: Option<Captures>)
    requires pc < |prog| && prog[pc].Alt? && pos <= |s|
    ensures Bounded(caps, pos) && r.Some? ==> Bounded(r.value, |s|)
    decreases |prog| - pc, 0, |prog[pc].words| - i
  {
    var ws := prog[pc].words;
    if i >= |ws| then None
    else
      var r := if WordAt(s, pos, ws[i]) then Match(prog, pc + 1, s, pos + |ws[i]|, caps) else None;
      if r.Some? then r else MatchAlt(prog, pc, i + 1, s, pos, caps)
  }

  /** Class run of length `n` and, should the rest of the pattern fail after it,
      the shorter ones down to the minimum. */
  function MatchRep(prog: seq<Node>, pc: nat, n: nat, s: string, pos: nat, caps: Captures): (r: Option<Captures>)
    requires pc < |prog| && prog[pc].Rep? && pos + n <= |s|
    ensures Bounded(caps, pos) && r.Some? ==> Bounded(r.value, |s|)
    decreases |prog| - pc, 0, n
  {
    var r := Match(prog, pc + 1, s, pos + n, caps);
    if r.Some? then r
    else if n <= prog[pc].min then None
    else MatchRep(prog, pc, n - 1, s, pos, caps)
  }

  /** `re.search`: the match that starts leftmost, trying starts from `start` on. */
  function Search(prog: seq<Node>, s: string, start: nat): (r: Option<Captures>)
    requires start <= |s|
    ensures r.Some? ==> Bounded(r.value, |s|)
    decreases |s| - start
  {
    var r := Match(prog, 0, s, start, map[]);
    if r.Some? then r
    else if start == |s| then None
    else Search(prog, s, start + 1)
  }

  /** The text of group `g`. */
  function Group(s: string, caps: Captures, g: nat): string
    requires Bounded(caps, |s|) && g in caps
  {
    s[caps[g].start..caps[g].end]
  }

  /** A successful run keeps the groups it was given and opens every group
      that every path through the rest of the pattern opens. */
  lemma {:induction false} MatchOpens(prog: seq<Node>, pc: nat, s: string, pos: nat, caps: Captures)
    requires pc <= |prog| && pos <= |s|
    ensures var r := Match(prog, pc, s, pos, caps); r.Some? ==> caps.Keys + MustOpen(prog, pc) <= r.value.Keys
    decreases |prog| - pc, 1, 0
  {
    if pc < |prog| {
      match prog[pc]
      case Alt(ws) => MatchAltOpens(prog, pc, 0, s, pos, caps);
      case Rep(k, m) =>
        var n := ClassRun(k, s, pos);
        if n >= m { MatchRepOpens(prog, pc, n, s, pos, caps); }
      case Open(g) => MatchOpens(prog, pc + 1, s, pos, caps[g := Span(pos, pos)]);
      case Close(g) =>
        if g in caps { MatchOpens(prog, pc + 1, s, pos, caps[g := Span(caps[g].start, pos)]); }
      case Try(k) =>
        MatchOpens(prog, pc + 1, s, pos, caps);
        if pc + 1 + k <= |prog| { MatchOpens(prog, pc + 1 + k, s, pos, caps); }
    }
  }

  lemma {:induction false} MatchAltOpens(prog: seq<Node>, pc: nat, i: nat, s: string, pos: nat, caps: Captures)
    requires pc < |prog| && prog[pc].Alt? && pos <= |s|
    ensures var r := MatchAlt(prog, pc, i, s, pos, caps); r.Some? ==> caps.Keys + MustOpen(prog, pc) <= r.value.Keys
    decreases |prog| - pc, 0, |prog[pc].words| - i
  {
    var ws := prog[pc].words;
    if i < |ws| {
      if WordAt(s, pos, ws[i]) { MatchOpens(prog, pc + 1, s, pos + |ws[i]|, caps); }
      MatchAltOpens(prog, pc, i + 1, s, pos, caps);
    }
  }

  lemma {:induction false} MatchRepOpens(prog: seq<Node>, pc: nat, n: nat, s: string, pos: nat, caps: Captures)
    requires pc < |prog| && prog[pc].Rep? && pos + n <= |s|
    ensures var r := MatchRep(prog, pc, n, s, pos, caps); r.Some? ==> caps.Keys + MustOpen(prog, pc) <= r.value.Keys
    decreases |prog| - pc, 0, n
  {
    MatchOpens(prog, pc + 1, s, pos + n, caps);
    if n > prog[pc].min { MatchRepOpens(prog, pc, n - 1, s, pos, caps); }
  }

  lemma {:induction false} SearchOpens(prog: seq<Node>, s: string, start: nat)
    requires start <= |s|
    ensures var r := Search(prog, s, start); r.Some? ==> MustOpen(prog, 0) <= r.value.Keys
    decreases |s| - start
  {
    MatchOpens(prog, 0, s, start, map[]);
    if start < |s| { SearchOpens(prog, s, start + 1); }
  }

  // ---------------------------------------------------------------------
  // What a successful match went through

  /** Every character of `h` is in class `k`. */
  predicate AllIn(h: string, k: Class) {
    forall i :: 0 <= i < |h| ==> InClass(h[i], k)
  }

  /** Any prefix of a class run consists of characters of the class. */
  lemma {:induction false} RunPrefix(k: Class, s: string, pos: nat, m: nat)
    requires pos <= |s| && m <= ClassRun(k, s, pos)
    ensures pos + m <= |s| && AllIn(s[pos..pos + m], k)
    decreases m
  {
    if m > 0 {
      RunPrefix(k, s, pos + 1, m - 1);
      assert s[pos..pos + m] == [s[pos]] + s[pos + 1..pos + m];
    }
  }

  /** A successful repetition took some length between its minimum and the
      longest run, and the rest of the pattern matched after it. */
  lemma {:induction false} RepStep(prog: seq<Node>, pc: nat, n: nat, s: string, pos: nat, caps: Captures) returns (m: nat)
    requires pc < |prog| && prog[pc].Rep? && pos + n <= |s| && prog[pc].min <= n
    requires MatchRep(prog, pc, n, s, pos, caps).Some?
    ensures prog[pc].min <= m <= n
    ensures MatchRep(prog, pc, n, s, pos, caps) == Match(prog, pc + 1, s, pos + m, caps)
    decreases n
  {
    if Match(prog, pc + 1, s, pos + n, caps).Some? {
      m := n;
    } else {
      m := RepStep(prog, pc, n - 1, s, pos, caps);
    }
  }

  /** A successful set of alternatives matched one word that occurs at `pos`,
      and the rest of the pattern matched after it. */
  lemma {:induction false} AltStep(prog: seq<Node>, pc: nat, i: nat, s: string, pos: nat, caps: Captures) returns (j: nat)
    requires pc < |prog| && prog[pc].Alt? && pos <= |s|
    requires MatchAlt(prog, pc, i, s, pos, caps).Some?
    ensures i <= j < |prog[pc].words| && WordAt(s, pos, prog[pc].words[j])
    ensures MatchAlt(prog, pc, i, s, pos, caps) == Match(prog, pc + 1, s, pos + |prog[pc].words[j]|, caps)
    decreases |prog[pc].words| - i
  {
    var ws := prog[pc].words;
    if WordAt(s, pos, ws[i]) && Match(prog, pc + 1, s, pos + |ws[i]|, caps).Some? {
      j := i;
    } else {
      j := AltStep(prog, pc, i + 1, s, pos, caps);
    }
  }

  /** A successful run whose next node is a repetition took some length of
      the class run there. */
  lemma RepTaken(prog: seq<Node>, pc: nat, s: string, pos: nat, caps: Captures) returns (m: nat)
    requires pc < |prog| && prog[pc].Rep? && pos <= |s| && Match(prog, pc, s, pos, caps).Some?
    ensures prog[pc].min <= m <= ClassRun(prog[pc].cls, s, pos)
    ensures Match(prog, pc, s, pos, caps) == Match(prog, pc + 1, s, pos + m, caps)
  {
    var n := ClassRun(prog[pc].cls, s, pos);
    m := RepStep(prog, pc, n, s, pos, caps);
  }

  /** A successful run whose next node is a set of alternatives read one of its words there. */
  lemma AltTaken(prog: seq<Node>, pc: nat, s: string, pos: nat, caps: Captures) returns (j: nat)
    requires pc < |prog| && prog[pc].Alt? && pos <= |s| && Match(prog, pc, s, pos, caps).Some?
    ensures j < |prog[pc].words| && WordAt(s, pos, prog[pc].words[j])
    ensures Match(prog, pc, s, pos, caps) == Match(prog, pc + 1, s, pos + |prog[pc].words[j]|, caps)
  {
    j := AltStep(prog, pc, 0, s, pos, caps);
  }

  /** Opening group `g` records an empty span at the current position. */
  lemma OpenStep(prog: seq<Node>, pc: nat, g: nat, s: string, pos: nat, caps: Captures)
    requires pc < |prog| && prog[pc] == Open(g) && pos <= |s|
    ensures Match(prog, pc, s, pos, caps) == Match(prog, pc + 1, s, pos, caps[g := Span(pos, pos)])
  {
  }

  /** Closing an open group `g` ends its span at the current position. */
  lemma CloseStep(prog: seq<Node>, pc: nat, g: nat, s: string, pos: nat, caps: Captures)
    requires pc < |prog| && prog[pc] == Close(g) && pos <= |s| && g in caps
    ensures Match(prog, pc, s, pos, caps) == Match(prog, pc + 1, s, pos, caps[g := Span(caps[g].start, pos)])
  {
  }

  /** An optional group is entered when the run through it succeeds and skipped otherwise. */
  lemma TryStep(prog: seq<Node>, pc: nat, k: nat, s: string, pos: nat, caps: Captures)
    requires pc + 1 + k <= |prog| && prog[pc] == Try(k) && pos <= |s|
    ensures Match(prog, pc, s, pos, caps) ==
      if Match(prog, pc + 1, s, pos, caps).Some? then Match(prog, pc + 1, s, pos, caps) else Match(prog, pc + 1 + k, s, pos, caps)
  {
  }

  /** The optional groups in `prog[pc..target]` jump no further than `target`. */
  predicate JumpsWithin(prog: seq<Node>, pc: nat, target: nat) {
    forall i :: pc <= i < target && i < |prog| && prog[i].Try? ==> i + 1 + prog[i].body <= target
  }

  /** A successful run from `pc` passes through `target`: it is the run from
      `target` at some position, with some groups recorded. */
  lemma {:induction false} Advance(prog: seq<Node>, pc: nat, target: nat, s: string, pos: nat, caps: Captures)
    returns (p: nat, c: Captures)
    requires pc <= target <= |prog| && pos <= |s| && JumpsWithin(prog, pc, target)
    requires Match(prog, pc, s, pos, caps).Some?
    ensures p <= |s| && Match(prog, pc, s, pos, caps) == Match(prog, target, s, p, c)
    decreases target - pc
  {
    if pc == target {
      p, c := pos, caps;
    } else {
      match prog[pc]
      case Alt(ws) =>
        var j := AltStep(prog, pc, 0, s, pos, caps);
        p, c := Advance(prog, pc + 1, target, s, pos + |ws[j]|, caps);
      case Rep(k, m) =>
        var n := ClassRun(k, s, pos);
        var l := RepStep(prog, pc, n, s, pos, caps);
        p, c := Advance(prog, pc + 1, target, s, pos + l, caps);
      case Open(g) =>
        p, c := Advance(prog, pc + 1, target, s, pos, caps[g := Span(pos, pos)]);
      case Close(g) =>
        p, c := Advance(prog, pc + 1, target, s, pos, caps[g := Span(caps[g].start, pos)]);
      case Try(k) =>
        if Match(prog, pc + 1, s, pos, caps).Some? {
          p, c := Advance(prog, pc + 1, target, s, pos, caps);
        } else {
          p, c := Advance(prog, pc + 1 + k, target, s, pos, caps);
        }
    }
  }

  /** A successful search is a successful match from some start on. */
  lemma {:induction false} SearchStart(prog: seq<Node>, s: string, start: nat) returns (p: nat)
    requires start <= |s| && Search(prog, s, start).Some?
    ensures start <= p <= |s| && Search(prog, s, start) == Match(prog, 0, s, p, map[])
    decreases |s| - start
  {
    if Match(prog, 0, s, start, map[]).Some? {
      p := start;
    } else {
      p := SearchStart(prog, s, start + 1);
    }
  }

  /** The groups that nodes of `prog` open or close. */
  function GroupsIn(prog: seq<Node>): set<nat> {
    if prog == [] then {} else NodeGroups(prog[0]) + GroupsIn(prog[1..])
  }

  function NodeGroups(n: Node): set<nat> {
    match n
    case Open(g) => {g}
    case Close(g) => {g}
    case _ => {}
  }

  lemma {:induction false} GroupsInAppend(a: seq<Node>, b: seq<Node>)
    ensures GroupsIn(a + b) == GroupsIn(a) + GroupsIn(b)
  {
    if a == [] {
      assert a + b == b;
    } else {
      assert (a + b)[0] == a[0] && (a + b)[1..] == a[1..] + b;
      GroupsInAppend(a[1..], b);
    }
  }

  lemma {:induction false} GroupsInIndex(prog: seq<Node>, i: nat)
    requires i < |prog|
    ensures prog[i].Open? || prog[i].Close? ==> prog[i].group in GroupsIn(prog)
  {
    if i > 0 { GroupsInIndex(prog[1..], i - 1); }
  }

  /** No node of `prog` from `pc` on opens or closes group `g`. */
  predicate Untouched(prog: seq<Node>, pc: nat, g: nat) {
    forall i :: pc <= i < |prog| ==> prog[i] != Open(g) && prog[i] != Close(g)
  }

  /** Nodes after a part that mention no group `g` leave it untouched. */
  lemma UntouchedAfter(a: seq<Node>, b: seq<Node>, g: nat)
    requires g !in GroupsIn(b)
    ensures Untouched(a + b, |a|, g)
  {
    forall i | |a| <= i < |a + b| ensures (a + b)[i] != Open(g) && (a + b)[i] != Close(g) {
      assert (a + b)[i] == b[i - |a|];
      GroupsInIndex(b, i - |a|);
    }
  }

  /** A part whose optional groups stay inside it keeps every jump before its end. */
  lemma JumpsInPart(a: seq<Node>, b: seq<Node>)
    requires TriesInside(a)
    ensures JumpsWithin(a + b, 0, |a|)
  {
    forall i | 0 <= i < |a| && (a + b)[i].Try? ensures i + 1 + (a + b)[i].body <= |a| {
      assert (a + b)[i] == a[i];
    }
  }

  /** The rest of a run that never touches group `g` leaves its span as it was. */
  lemma {:induction false} MatchKeeps(prog: seq<Node>, pc: nat, s: string, pos: nat, caps: Captures, g: nat)
    requires pc <= |prog| && pos <= |s| && Untouched(prog, pc, g) && g in caps
    ensures var r := Match(prog, pc, s, pos, caps); r.Some? ==> g in r.value && r.value[g] == caps[g]
    decreases |prog| - pc, 1, 0
  {
    if pc < |prog| {
      match prog[pc]
      case Alt(ws) => MatchAltKeeps(prog, pc, 0, s, pos, caps, g);
      case Rep(k, m) =>
        var n := ClassRun(k, s, pos);
        if n >= m { MatchRepKeeps(prog, pc, n, s, pos, caps, g); }
      case Open(h) => MatchKeeps(prog, pc + 1, s, pos, caps[h := Span(pos, pos)], g);
      case Close(h) =>
        if h in caps { MatchKeeps(prog, pc + 1, s, pos, caps[h := Span(caps[h].start, pos)], g); }
      case Try(k) =>
        MatchKeeps(prog, pc + 1, s, pos, caps, g);
        if pc + 1 + k <= |prog| { MatchKeeps(prog, pc + 1 + k, s, pos, caps, g); }
    }
  }

  lemma {:induction false} MatchAltKeeps(prog: seq<Node>, pc: nat, i: nat, s: string, pos: nat, caps: Captures, g: nat)
    requires pc < |prog| && prog[pc].Alt? && pos <= |s| && Untouched(prog, pc, g) && g in caps
    ensures var r := MatchAlt(prog, pc, i, s, pos, caps); r.Some? ==> g in r.value && r.value[g] == caps[g]
    decreases |prog| - pc, 0, |prog[pc].words| - i
  {
    var ws := prog[pc].words;
    if i < |ws| {
      if WordAt(s, pos, ws[i]) { MatchKeeps(prog, pc + 1, s, pos + |ws[i]|, caps, g); }
      MatchAltKeeps(prog, pc, i + 1, s, pos, caps, g);
    }
  }

  lemma {:induction false} MatchRepKeeps(prog: seq<Node>, pc: nat, n: nat, s: string, pos: nat, caps: Captures, g: nat)
    requires pc < |prog| && prog[pc].Rep? && pos + n <= |s| && Untouched(prog, pc, g) && g in caps
    ensures var r := MatchRep(prog, pc, n, s, pos, caps); r.Some? ==> g in r.value && r.value[g] == caps[g]
    decreases |prog| - pc, 0, n
  {
    MatchKeeps(prog, pc + 1, s, pos + n, caps, g);
    if n > prog[pc].min { MatchRepKeeps(prog, pc, n - 1, s, pos, caps, g); }
  }

  /** Every character of a word found at `pos` agrees with the word up to ASCII case. */
  lemma {:induction false} WordAtChar(s: string, pos: nat, w: string, j: nat)
    ensures WordAt(s, pos, w) && j < |w| ==> pos + j < |s| && LowerChar(s[pos + j]) == LowerChar(w[j])
    decreases |w|
  {
    if j > 0 && w != [] { WordAtChar(s, pos + 1, w[1..], j - 1); }
  }

  /** A word one of whose characters, ignoring case, does not occur in the
      text does not occur in it either. */
  lemma NoWordWithout(s: string, pos: nat, w: string, j: nat)
    requires j < |w| && forall k :: 0 <= k < |s| ==> LowerChar(s[k]) != LowerChar(w[j])
    ensures !WordAt(s, pos, w)
  {
    WordAtChar(s, pos, w, j);
  }

  /** Alternatives none of which occurs at `pos` fail whatever follows them. */
  lemma {:induction false} AltMiss(prog: seq<Node>, pc: nat, i: nat, s: string, pos: nat, caps: Captures)
    requires pc < |prog| && prog[pc].Alt? && pos <= |s|
    requires forall j :: i <= j < |prog[pc].words| ==> !WordAt(s, pos, prog[pc].words[j])
    ensures MatchAlt(prog, pc, i, s, pos, caps) == None
    decreases |prog[pc].words| - i
  {
    if i < |prog[pc].words| { AltMiss(prog, pc, i + 1, s, pos, caps); }
  }

  /** A repetition fails when the rest of the pattern, from `next`, fails
      after every length it may take. */
  lemma {:induction false} RepMiss(prog: seq<Node>, pc: nat, next: nat, n: nat, s: string, pos: nat, caps: Captures)
    requires pc < |prog| && prog[pc].Rep? && next == pc + 1 && prog[pc].min <= n && pos + n <= |s|
    requires forall q :: pos + prog[pc].min <= q <= pos + n ==> Match(prog, next, s, q, caps) == None
    ensures MatchRep(prog, pc, n, s, pos, caps) == None
    decreases n
  {
    assert Match(prog, next, s, pos + n, caps) == None;
    if n > prog[pc].min { RepMiss(prog, pc, next, n - 1, s, pos, caps); }
  }

  /** A pattern that starts with alternatives none of which occurs in the text
      from `start` on has no match there. */
  lemma {:induction false} SearchNoLead(prog: seq<Node>, s: string, start: nat)
    requires start <= |s| && prog != [] && prog[0].Alt?
    requires forall p, i :: start <= p <= |s| && 0 <= i < |prog[0].words| ==> !WordAt(s, p, prog[0].words[i])
    ensures Search(prog, s, start) == None
    decreases |s| - start
  {
    AltMiss(prog, 0, 0, s, start, map[]);
    if start < |s| { SearchNoLead(prog, s, start + 1); }
  }

  /** A group that closes, a run of separators and a label: the rest fails
      when no label word starts anywhere the separators could end. */
  lemma LabelMiss(prog: seq<Node>, pc: nat, s: string, pos: nat, caps: Captures, sep: Class, ws: seq<string>)
    requires pc + 2 < |prog| && prog[pc].Close? && pos <= |s|
    requires prog[pc + 1].Rep? && prog[pc + 1].cls == sep && prog[pc + 2] == Alt(ws)
    requires forall p, i :: pos <= p <= pos + ClassRun(sep, s, pos) && 0 <= i < |ws| ==> !WordAt(s, p, ws[i])
    ensures Match(prog, pc, s, pos, caps) == None
  {
    var g := prog[pc].group;
    if g in caps {
      var c := caps[g := Span(caps[g].start, pos)];
      var n := ClassRun(sep, s, pos);
      var next := pc + 2;
      forall q | pos + prog[pc + 1].min <= q <= pos + n ensures Match(prog, next, s, q, c) == None {
        AltMiss(prog, next, 0, s, q, c);
      }
      if n >= prog[pc + 1].min { RepMiss(prog, pc + 1, next, n, s, pos, c); }
    }
  }
}
