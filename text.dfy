/**
 * Python string primitives the bot relies on, restricted to ASCII character
 * classes: `str.isspace`/`\s`, `\d`/`str.isdigit`, `\w`, `str.lower`,
 * `str.strip`, `str.split()`, `str.split(sep)`, `sep.join`, `in`,
 * `str.startswith`, `str.replace`, and `re.sub` of a one-class run by a space.
 */
module Text {

  datatype Option<+T> = None | Some(value: T)

  /** Python's `str.isspace` (and `\s` in a `str` pattern) on ASCII: tab to
      carriage return, the four separators 0x1C-0x1F, and the space. */
  predicate IsSpace(c: char) {
    c == ' ' || '\t' <= c <= '\r' || '\U{1C}' <= c <= '\U{1F}'
  }

  /** `\d` and `str.isdigit` on ASCII. */
  predicate IsDigit(c: char) {
    '0' <= c <= '9'
  }

  /** `[a-zA-Z]`. */
  predicate IsLetter(c: char) {
    'a' <= c <= 'z' || 'A' <= c <= 'Z'
  }

  /** `\w` on ASCII: letters, digits and the underscore. */
  predicate IsWordChar(c: char) {
    IsLetter(c) || IsDigit(c) || c == '_'
  }

  /** `str.lower` on one ASCII character. */
  function LowerChar(c: char): (r: char)
    ensures !('A' <= r <= 'Z')
    ensures IsDigit(c) <==> IsDigit(r)
  {
    if 'A' <= c <= 'Z' then (c as int + 32) as char else c
  }

  function Lower(s: string): (r: string)
    ensures |r| == |s|
    ensures forall i :: 0 <= i < |s| ==> r[i] == LowerChar(s[i])
  {
    if s == [] then [] else [LowerChar(s[0])] + Lower(s[1..])
  }

  /** A lower-case word at the head of a text stays there after lower-casing. */
  lemma LowerPrefix(c: string, w: string)
    requires StartsWith(c, w) && Lower(w) == w
    ensures StartsWith(Lower(c), w)
  {
    forall i | 0 <= i < |w|
      ensures Lower(c)[i] == w[i]
    {
      assert c[i] == w[i];
      assert Lower(w)[i] == w[i];
    }
  }

  predicate NoSpace(s: string) {
    forall i :: 0 <= i < |s| ==> !IsSpace(s[i])
  }

  /** `str.isdigit`: non-empty and every character a digit. */
  predicate IsDigits(s: string) {
    s != [] && forall i :: 0 <= i < |s| ==> IsDigit(s[i])
  }

  /** The value of a string of decimal digits. */
  function DigitsValue(s: string): (n: nat)
    requires forall i :: 0 <= i < |s| ==> IsDigit(s[i])
    decreases |s|
  {
    if s == [] then 0
    else
      assert IsDigit(s[|s| - 1]);
      10 * DigitsValue(s[..|s| - 1]) + (s[|s| - 1] as int - '0' as int)
  }

  /** `s.startswith(w)`. */
  predicate StartsWith(s: string, w: string) {
    |w| <= |s| && s[..|w|] == w
  }

  /** `s.endswith(w)`. */
  predicate EndsWith(s: string, w: string) {
    |w| <= |s| && s[|s| - |w|..] == w
  }

  /** `w in s`: some position of `s` starts an occurrence of `w`. */
  predicate Contains(s: string, w: string)
    decreases |s|
  {
    StartsWith(s, w) || (s != [] && Contains(s[1..], w))
  }

  lemma {:induction false} ContainsAt(s: string, w: string, i: nat)
    requires i + |w| <= |s| && s[i..i + |w|] == w
    ensures Contains(s, w)
    decreases i
  {
    if i > 0 {
      assert s[1..][i - 1..i - 1 + |w|] == s[i..i + |w|];
      ContainsAt(s[1..], w, i - 1);
    }
  }

  lemma {:induction false} ContainsIndex(s: string, w: string) returns (i: nat)
    requires Contains(s, w)
    ensures i + |w| <= |s| && s[i..i + |w|] == w
    decreases |s|
  {
    if StartsWith(s, w) {
      i := 0;
    } else {
      var j := ContainsIndex(s[1..], w);
      assert s[1..][j..j + |w|] == s[j + 1..j + 1 + |w|];
      i := j + 1;
    }
  }

  /** Any slice of `s` occurs in `s`. */
  lemma SliceContained(s: string, i: nat, j: nat)
    requires i <= j <= |s|
    ensures Contains(s, s[i..j])
  {
    ContainsAt(s, s[i..j], i);
  }

  lemma ContainsNoChar(s: string, w: string, c: char)
    requires Contains(s, w) && c !in s
    ensures c !in w
  {
    var i := ContainsIndex(s, w);
    forall j | 0 <= j < |w| ensures w[j] != c {
      assert w[j] == s[i + j];
    }
  }

  /** Occurrence is transitive: what occurs in a part of `s` occurs in `s`. */
  lemma ContainsTrans(s: string, m: string, w: string)
    requires Contains(s, m) && Contains(m, w)
    ensures Contains(s, w)
  {
    var i := ContainsIndex(s, m);
    var j := ContainsIndex(m, w);
    assert s[i + j..i + j + |w|] == w by {
      forall k | 0 <= k < |w| ensures s[i + j + k] == w[k] {
        assert w[k] == m[j + k] == s[i + j + k];
      }
    }
    ContainsAt(s, w, i + j);
  }

  /** The first index from `i` on that holds no whitespace, or `|s|`. */
  function SkipSpace(s: string, i: nat): (j: nat)
    requires i <= |s|
    ensures i <= j <= |s| && (j < |s| ==> !IsSpace(s[j]))
    decreases |s| - i
  {
    if i < |s| && IsSpace(s[i]) then SkipSpace(s, i + 1) else i
  }

  /** Going back from `j` no further than `lo`: the index just after the last
      character that is not whitespace, or `lo`. */
  function BackSpace(s: string, lo: nat, j: nat): (k: nat)
    requires lo <= j <= |s|
    ensures lo <= k <= j && (k > lo ==> !IsSpace(s[k - 1]))
    decreases j - lo
  {
    if j > lo && IsSpace(s[j - 1]) then BackSpace(s, lo, j - 1) else j
  }

  lemma {:induction false} SkipSpaceAll(s: string, i: nat)
    requires i <= |s|
    ensures forall k :: i <= k < SkipSpace(s, i) ==> IsSpace(s[k])
    decreases |s| - i
  {
    if i < |s| && IsSpace(s[i]) {
      SkipSpaceAll(s, i + 1);
    }
  }

  lemma {:induction false} BackSpaceAll(s: string, lo: nat, j: nat)
    requires lo <= j <= |s|
    ensures forall k :: BackSpace(s, lo, j) <= k < j ==> IsSpace(s[k])
    decreases j - lo
  {
    if j > lo && IsSpace(s[j - 1]) {
      BackSpaceAll(s, lo, j - 1);
    }
  }

  /** Where `str.strip()` starts cutting the kept text out of `s`. */
  function StripStart(s: string): nat {
    SkipSpace(s, 0)
  }

  /** `str.strip()`: the slice of `s` left after removing surrounding whitespace. */
  function Strip(s: string): (r: string)
    ensures StripStart(s) + |r| <= |s| && r == s[StripStart(s)..StripStart(s) + |r|]
    ensures r == [] || (!IsSpace(r[0]) && !IsSpace(r[|r| - 1]))
  {
    var a := SkipSpace(s, 0);
    s[a..BackSpace(s, a, |s|)]
  }

  /** What stripping removes on either side is whitespace. */
  lemma StripTrims(s: string)
    ensures forall k :: 0 <= k < StripStart(s) ==> IsSpace(s[k])
    ensures forall k :: StripStart(s) + |Strip(s)| <= k < |s| ==> IsSpace(s[k])
  {
    SkipSpaceAll(s, 0);
    BackSpaceAll(s, StripStart(s), |s|);
  }

  /** Stripping removes no character other than whitespace. */
  lemma StripKeepsIn(s: string, c: char)
    ensures !IsSpace(c) && c in s ==> c in Strip(s)
  {
    if !IsSpace(c) && c in s {
      var r := Strip(s);
      var a := StripStart(s);
      var k :| 0 <= k < |s| && s[k] == c;
      StripTrims(s);
      assert a <= k < a + |r|;
      assert r[k - a] == c;
    }
  }

  /** Stripping adds no character that was not there. */
  lemma StripKeepsOut(s: string, c: char)
    ensures c !in s ==> c !in Strip(s)
  {
    var r := Strip(s);
    var a := StripStart(s);
    forall k | 0 <= k < |r| ensures c !in s ==> r[k] != c {
      assert r[k] == s[a + k];
    }
  }

  /** `str.strip()` changes nothing when `s` neither starts nor ends with whitespace. */
  lemma StripNoop(s: string)
    requires s == [] || (!IsSpace(s[0]) && !IsSpace(s[|s| - 1]))
    ensures Strip(s) == s
  {
    assert SkipSpace(s, 0) == 0;
    assert BackSpace(s, 0, |s|) == |s|;
  }

  /** Length of the run of non-whitespace characters at the front of `s`. */
  function WordLength(s: string): (n: nat)
    ensures n <= |s| && NoSpace(s[..n]) && (n < |s| ==> IsSpace(s[n]))
    decreases |s|
  {
    if s == [] || IsSpace(s[0]) then 0
    else
      var n := 1 + WordLength(s[1..]);
      assert s[..n] == [s[0]] + s[1..][..n - 1];
      n
  }

  /** `str.split()` with no separator: the maximal runs of non-whitespace. */
  function Words(s: string): (r: seq<string>)
    ensures forall k :: 0 <= k < |r| ==> r[k] != [] && NoSpace(r[k])
    decreases |s|
  {
    if s == [] then []
    else if IsSpace(s[0]) then Words(s[1..])
    else
      var n := WordLength(s);
      [s[..n]] + Words(s[n..])
  }

  /** Every word occurs in the text it was split from. */
  lemma {:induction false} WordsContained(s: string, k: nat)
    requires k < |Words(s)|
    ensures Contains(s, Words(s)[k])
    decreases |s|
  {
    if IsSpace(s[0]) {
      assert Words(s) == Words(s[1..]);
      WordsContained(s[1..], k);
      SliceContained(s, 1, |s|);
      assert s[1..|s|] == s[1..];
      ContainsTrans(s, s[1..], Words(s)[k]);
    } else {
      var n := WordLength(s);
      if k == 0 {
        SliceContained(s, 0, n);
      } else {
        assert Words(s)[k] == Words(s[n..])[k - 1];
        WordsContained(s[n..], k - 1);
        SliceContained(s, n, |s|);
        assert s[n..|s|] == s[n..];
        ContainsTrans(s, s[n..], Words(s)[k]);
      }
    }
  }

  /** `sep.join(parts)`. */
  function Join(parts: seq<string>, sep: string): (r: string)
    ensures |parts| == 1 ==> r == parts[0]
  {
    if parts == [] then []
    else if |parts| == 1 then parts[0]
    else parts[0] + sep + Join(parts[1..], sep)
  }

  /** Non-empty words without whitespace, as `str.split()` returns them. */
  predicate Spaceless(ts: seq<string>) {
    forall k :: 0 <= k < |ts| ==> ts[k] != [] && NoSpace(ts[k])
  }

  lemma {:induction false} WordLengthOf(w: string, x: string)
    requires NoSpace(w) && (x == [] || IsSpace(x[0]))
    ensures WordLength(w + x) == |w|
    decreases |w|
  {
    if w != [] {
      assert (w + x)[0] == w[0];
      assert (w + x)[1..] == w[1..] + x;
      WordLengthOf(w[1..], x);
    } else {
      assert w + x == x;
    }
  }

  /** `str.split()` undoes `' '.join` of non-empty words without whitespace. */
  lemma {:induction false} WordsJoin(ts: seq<string>)
    requires Spaceless(ts)
    ensures Words(Join(ts, " ")) == ts
    decreases |ts|
  {
    if ts != [] {
      var w := ts[0];
      var rest := if |ts| == 1 then [] else " " + Join(ts[1..], " ");
      assert Join(ts, " ") == w + rest;
      WordLengthOf(w, rest);
      assert (w + rest)[..|w|] == w && (w + rest)[|w|..] == rest;
      if |ts| > 1 {
        assert rest[1..] == Join(ts[1..], " ");
        WordsJoin(ts[1..]);
      }
    }
  }

  /** `' '.join` of non-empty words without whitespace is single-spaced with
      plain spaces and has no whitespace at either end. */
  lemma {:induction false} JoinSpacing(ts: seq<string>)
    requires Spaceless(ts)
    ensures SingleSpaced(Join(ts, " ")) && SpacesArePlain(Join(ts, " "))
    ensures ts != [] ==> (Join(ts, " ") != [] && !IsSpace(Join(ts, " ")[0])
      && !IsSpace(Join(ts, " ")[|Join(ts, " ")| - 1]))
    decreases |ts|
  {
    var r := Join(ts, " ");
    if |ts| > 1 {
      var w := ts[0];
      var rest := Join(ts[1..], " ");
      JoinSpacing(ts[1..]);
      assert r == w + " " + rest;
      forall i | 0 <= i < |r| ensures (i < |w| ==> r[i] == w[i]) && (i == |w| ==> r[i] == ' ')
        && (i > |w| ==> r[i] == rest[i - |w| - 1]) {
      }
    }
  }

  /** `s.split(c)` for a one-character separator: the pieces between separators, empty ones kept. */
  function SplitOn(s: string, c: char): (r: seq<string>)
    ensures |r| >= 1
    decreases |s|
  {
    if s == [] then [[]]
    else
      var rest := SplitOn(s[1..], c);
      if s[0] == c then [[]] + rest else [[s[0]] + rest[0]] + rest[1..]
  }

  /** Number of occurrences of the character `c` in `s`. */
  function Count(s: string, c: char): nat
    decreases |s|
  {
    if s == [] then 0 else (if s[0] == c then 1 else 0) + Count(s[1..], c)
  }

  /** A text without the separator is one piece. */
  lemma {:induction false} SplitOnAbsent(s: string, c: char)
    requires c !in s
    ensures SplitOn(s, c) == [s]
    decreases |s|
  {
    if s != [] {
      assert s[0] != c && c !in s[1..];
      SplitOnAbsent(s[1..], c);
      assert [s[0]] + s[1..] == s;
    }
  }

  /** A text with exactly one separator splits into the two sides of it. */
  lemma {:induction false} SplitOnOne(a: string, c: char, b: string)
    requires c !in a && c !in b
    ensures SplitOn(a + [c] + b, c) == [a, b]
    decreases |a|
  {
    var s := a + [c] + b;
    if a == [] {
      assert s[1..] == b;
      SplitOnAbsent(b, c);
    } else {
      assert s[0] == a[0] && s[1..] == a[1..] + [c] + b;
      assert c !in a[1..];
      SplitOnOne(a[1..], c, b);
      assert [a[0]] + a[1..] == a;
    }
  }

  /** A character occurs exactly when it is counted. */
  lemma {:induction false} CountIn(s: string, c: char)
    ensures Count(s, c) == 0 <==> c !in s
    decreases |s|
  {
    if s != [] {
      CountIn(s[1..], c);
      assert s == [s[0]] + s[1..];
    }
  }

  lemma {:induction false} CountAppend(a: string, b: string, c: char)
    ensures Count(a + b, c) == Count(a, c) + Count(b, c)
    decreases |a|
  {
    if a != [] {
      assert (a + b)[1..] == a[1..] + b;
      CountAppend(a[1..], b, c);
    } else {
      assert a + b == b;
    }
  }

  /** Splitting on `c` gives one piece more than there are `c`s. */
  lemma {:induction false} SplitOnCount(s: string, c: char)
    ensures |SplitOn(s, c)| == Count(s, c) + 1
    decreases |s|
  {
    if s != [] {
      SplitOnCount(s[1..], c);
    }
  }

  /** A character that occurs once has nothing like it on either side. */
  lemma CountOne(s: string, c: char, i: nat)
    requires i < |s| && s[i] == c && Count(s, c) == 1
    ensures c !in s[..i] && c !in s[i + 1..]
  {
    assert s == s[..i] + [c] + s[i + 1..];
    CountAppend(s[..i] + [c], s[i + 1..], c);
    CountAppend(s[..i], [c], c);
    CountIn(s[..i], c);
    CountIn(s[i + 1..], c);
  }

  /** `s.replace(a, b)` for single characters. */
  function ReplaceChar(s: string, a: char, b: char): (r: string)
    ensures |r| == |s|
    ensures forall i :: 0 <= i < |s| ==> r[i] == (if s[i] == a then b else s[i])
  {
    if s == [] then [] else [if s[0] == a then b else s[0]] + ReplaceChar(s[1..], a, b)
  }

  /** Whether `s` starts with a character of the class `p`, and the length of that run. */
  function RunLength(s: string, p: char -> bool): (n: nat)
    ensures n <= |s|
    ensures forall i :: 0 <= i < n ==> p(s[i])
    ensures n < |s| ==> !p(s[n])
    decreases |s|
  {
    if s != [] && p(s[0]) then 1 + RunLength(s[1..], p) else 0
  }

  /** `re.sub('[C]+', ' ', s)` for a character class `C` given by `p`: every
      maximal run of class characters becomes one space. */
  function SquashRuns(s: string, p: char -> bool): (r: string)
    ensures forall i :: 0 <= i < |r| ==> r[i] == ' ' || !p(r[i])
    decreases |s|
  {
    if s == [] then []
    else if p(s[0]) then
      var n := RunLength(s, p);
      [' '] + SquashRuns(s[n..], p)
    else [s[0]] + SquashRuns(s[1..], p)
  }

  /** A squashed text starts with the first character of the input when that
      character is not in the class. */
  lemma SquashHead(s: string, p: char -> bool)
    requires s != [] && !p(s[0])
    ensures SquashRuns(s, p) != [] && SquashRuns(s, p)[0] == s[0]
  {
  }

  /** Every character of a squashed text is the replacement space or one of the input's. */
  lemma {:induction false} SquashChars(s: string, p: char -> bool, c: char)
    requires c != ' ' && c in SquashRuns(s, p)
    ensures c in s
    decreases |s|
  {
    if p(s[0]) {
      var n := RunLength(s, p);
      SquashChars(s[n..], p, c);
    } else if c != s[0] {
      SquashChars(s[1..], p, c);
    }
  }

  /** No two whitespace characters stand side by side. */
  predicate SingleSpaced(r: string) {
    forall i :: 0 <= i < |r| - 1 ==> !(IsSpace(r[i]) && IsSpace(r[i + 1]))
  }

  /** Squashing whitespace runs leaves no two whitespace characters side by side. */
  lemma {:induction false} SquashSpaceSingle(s: string)
    ensures SingleSpaced(SquashRuns(s, IsSpace))
    decreases |s|
  {
    var r := SquashRuns(s, IsSpace);
    if s != [] {
      if IsSpace(s[0]) {
        var n := RunLength(s, IsSpace);
        var r' := SquashRuns(s[n..], IsSpace);
        assert r == [' '] + r';
        SquashSpaceSingle(s[n..]);
        if n < |s| {
          SquashHead(s[n..], IsSpace);
        }
        forall i | 0 <= i < |r| - 1 ensures !(IsSpace(r[i]) && IsSpace(r[i + 1])) {
          if i > 0 {
            assert r[i] == r'[i - 1] && r[i + 1] == r'[i];
            assert !(IsSpace(r'[i - 1]) && IsSpace(r'[i]));
          }
        }
      } else {
        var r' := SquashRuns(s[1..], IsSpace);
        assert r == [s[0]] + r';
        SquashSpaceSingle(s[1..]);
        forall i | 0 <= i < |r| - 1 ensures !(IsSpace(r[i]) && IsSpace(r[i + 1])) {
          if i > 0 {
            assert r[i] == r'[i - 1] && r[i + 1] == r'[i];
            assert !(IsSpace(r'[i - 1]) && IsSpace(r'[i]));
          }
        }
      }
    }
  }

  /** A prefix of a squashed text that holds no space is a prefix of the input. */
  lemma {:induction false} SquashPrefixBack(s: string, p: char -> bool, w: string)
    requires StartsWith(SquashRuns(s, p), w) && ' ' !in w
    ensures StartsWith(s, w)
    decreases |s|
  {
    if w != [] {
      assert SquashRuns(s, p)[0] == w[0] && w[0] != ' ';
      assert !p(s[0]);
      {
        var r := SquashRuns(s[1..], p);
        assert SquashRuns(s, p) == [s[0]] + r;
        assert StartsWith(r, w[1..]) by {
          assert r[..|w| - 1] == SquashRuns(s, p)[1..|w|];
        }
        SquashPrefixBack(s[1..], p, w[1..]);
        assert s[..|w|] == [s[0]] + s[1..][..|w| - 1];
      }
    }
  }

  /** A space-free text that occurs in a squashed text occurs in the input. */
  lemma {:induction false} SquashContainsBack(s: string, p: char -> bool, w: string)
    requires Contains(SquashRuns(s, p), w) && ' ' !in w
    ensures Contains(s, w)
    decreases |s|
  {
    var r := SquashRuns(s, p);
    if StartsWith(r, w) {
      SquashPrefixBack(s, p, w);
    } else {
      assert r != [] && Contains(r[1..], w);
      if p(s[0]) {
        var n := RunLength(s, p);
        assert r[1..] == SquashRuns(s[n..], p);
        SquashContainsBack(s[n..], p, w);
        SliceContained(s, n, |s|);
        assert s[n..|s|] == s[n..];
        ContainsTrans(s, s[n..], w);
      } else {
        assert r[1..] == SquashRuns(s[1..], p);
        SquashContainsBack(s[1..], p, w);
        SliceContained(s, 1, |s|);
        assert s[1..|s|] == s[1..];
        ContainsTrans(s, s[1..], w);
      }
    }
  }

  /** A text that occurs after replacing `a` by `b`, and holds no `b`, occurred before. */
  lemma ReplaceCharContainsBack(s: string, a: char, b: char, w: string)
    requires Contains(ReplaceChar(s, a, b), w) && b !in w
    ensures Contains(s, w)
  {
    var r := ReplaceChar(s, a, b);
    var i := ContainsIndex(r, w);
    assert s[i..i + |w|] == w by {
      forall k | 0 <= k < |w| ensures s[i + k] == w[k] {
        assert r[i + k] == w[k];
        assert w[k] != b;
      }
    }
    ContainsAt(s, w, i);
  }

  /** A text that occurs in the strip of `s` occurs in `s`. */
  lemma StripContainsBack(s: string, w: string)
    requires Contains(Strip(s), w)
    ensures Contains(s, w)
  {
    var r := Strip(s);
    var i := StripStart(s);
    SliceContained(s, i, i + |r|);
    ContainsTrans(s, r, w);
  }

  /** Every whitespace character is the plain space. */
  predicate SpacesArePlain(s: string) {
    forall i :: 0 <= i < |s| && IsSpace(s[i]) ==> s[i] == ' '
  }

  /** Squashing whitespace changes nothing in a text whose whitespace is
      already single plain spaces. */
  lemma {:induction false} SquashNoop(s: string)
    requires SingleSpaced(s) && SpacesArePlain(s)
    ensures SquashRuns(s, IsSpace) == s
    decreases |s|
  {
    if s != [] {
      assert SingleSpaced(s[1..]) && SpacesArePlain(s[1..]) by {
        forall i | 0 <= i < |s[1..]| - 1 ensures !(IsSpace(s[1..][i]) && IsSpace(s[1..][i + 1])) {
          assert s[1..][i] == s[i + 1] && s[1..][i + 1] == s[i + 2];
        }
      }
      SquashNoop(s[1..]);
      if IsSpace(s[0]) {
        assert |s| > 1 ==> !IsSpace(s[1]);
        assert RunLength(s, IsSpace) == 1;
      }
    }
  }

  /** Squashing runs of a class that does not occur changes nothing. */
  lemma {:induction false} SquashAbsent(s: string, p: char -> bool)
    requires forall i :: 0 <= i < |s| ==> !p(s[i])
    ensures SquashRuns(s, p) == s
    decreases |s|
  {
    if s != [] {
      SquashAbsent(s[1..], p);
    }
  }

  /** Replacing a character that does not occur changes nothing. */
  lemma ReplaceAbsent(s: string, a: char, b: char)
    requires a !in s
    ensures ReplaceChar(s, a, b) == s
  {
    var r := ReplaceChar(s, a, b);
    forall i | 0 <= i < |s| ensures r[i] == s[i] {
      assert s[i] in s;
    }
  }
}
