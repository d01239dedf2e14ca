/**
 * The one host shape the bot recognises, `\d{1,3}(\.\d{1,3}){3}(:\d+)?`, at
 * the level of characters. The extractor's validation gate, its token scan and
 * `validate_host` all test strings against it.
 *
 * Each `\d{1,3}` group is read as the maximal run of digits at its position.
 * That is exact for these patterns: in any match, a group is followed by '.',
 * ':' or the end of the text, so it always spans a whole run of digits, and a
 * run longer than three digits can never match.
 */
module HostShape {
  import opened Text

  /** Length of the run of digits starting at `i`. */
  function DigitRun(s: string, i: nat): (n: nat)
    requires i <= |s|
    ensures i + n <= |s|
    decreases |s| - i
  {
    if i < |s| && IsDigit(s[i]) then 1 + DigitRun(s, i + 1) else 0
  }

  /** The run holds digits only and stops at a non-digit or the end. */
  lemma {:induction false} DigitRunBounds(s: string, i: nat)
    requires i <= |s|
    ensures forall k :: i <= k < i + DigitRun(s, i) ==> IsDigit(s[k])
    ensures i + DigitRun(s, i) < |s| ==> !IsDigit(s[i + DigitRun(s, i)])
    decreases |s| - i
  {
    if i < |s| && IsDigit(s[i]) {
      DigitRunBounds(s, i + 1);
    }
  }

  /** `\d{1,3}` at `i`: where the group ends, if it matches. */
  function OctetEnd(s: string, i: nat): (r: Option<nat>)
    requires i <= |s|
    ensures r.Some? ==> i < r.value <= i + 3 && r.value <= |s|
  {
    var n := DigitRun(s, i);
    if 1 <= n <= 3 then Some(i + n) else None
  }

  /** `(\.\d{1,3}){k}` at `i`: where the last group ends, if it matches. */
  function DottedEnd(s: string, i: nat, k: nat): (r: Option<nat>)
    requires i <= |s|
    ensures r.Some? ==> i <= r.value <= |s|
    decreases k
  {
    if k == 0 then Some(i)
    else if i < |s| && s[i] == '.' then
      match OctetEnd(s, i + 1)
      case None => None
      case Some(e) => DottedEnd(s, e, k - 1)
    else None
  }

  /** `\d{1,3}(\.\d{1,3}){3}` at `i`: where the dotted quad ends, if it matches. */
  function QuadEnd(s: string, i: nat): (r: Option<nat>)
    requires i <= |s|
    ensures r.Some? ==> i < r.value <= |s|
  {
    match OctetEnd(s, i)
    case None => None
    case Some(e) => DottedEnd(s, e, 3)
  }

  /** `^\d{1,3}\.\d{1,3}\.\d{1,3}\.\d{1,3}` and nothing after. */
  predicate IsQuad(s: string) {
    QuadEnd(s, 0) == Some(|s|)
  }

  /** `^\d{1,3}\.\d{1,3}\.\d{1,3}\.\d{1,3}(?::\d+)?` and nothing after. */
  predicate IsHostShape(s: string) {
    match QuadEnd(s, 0)
    case None => false
    case Some(e) => e == |s| || (s[e] == ':' && IsDigits(s[e + 1..]))
  }

  /** Python's `$` also matches just before a newline that ends the text. */
  predicate DollarQuad(s: string) {
    IsQuad(s) || (s != [] && s[|s| - 1] == '\n' && IsQuad(s[..|s| - 1]))
  }

  predicate DollarHost(s: string) {
    IsHostShape(s) || (s != [] && s[|s| - 1] == '\n' && IsHostShape(s[..|s| - 1]))
  }

  /** Some substring of `x` is a dotted quad. */
  predicate HasQuadSubstring(x: string) {
    exists i, j :: 0 <= i <= j <= |x| && IsQuad(x[i..j])
  }

  /** A dotted quad consists of digits and dots only. */
  predicate DigitsAndDots(s: string) {
    forall k :: 0 <= k < |s| ==> IsDigit(s[k]) || s[k] == '.'
  }

  lemma {:induction false} DottedChars(s: string, i: nat, k: nat)
    requires i <= |s| && DottedEnd(s, i, k).Some?
    ensures DigitsAndDots(s[i..DottedEnd(s, i, k).value])
    ensures var e := DottedEnd(s, i, k).value; k > 0 ==> e > i && IsDigit(s[e - 1]) && (e < |s| ==> !IsDigit(s[e]))
    decreases k
  {
    if k > 0 {
      var e := OctetEnd(s, i + 1).value;
      DigitRunBounds(s, i + 1);
      DottedChars(s, e, k - 1);
      var f := DottedEnd(s, i, k).value;
      assert s[i..f] == [s[i]] + s[i + 1..e] + s[e..f];
    }
  }

  /** The characters of a matched quad, and the run boundary where it ends. */
  lemma QuadChars(s: string, i: nat)
    requires i <= |s| && QuadEnd(s, i).Some?
    ensures DigitsAndDots(s[i..QuadEnd(s, i).value])
    ensures var e := QuadEnd(s, i).value; IsDigit(s[e - 1]) && (e < |s| ==> !IsDigit(s[e]))
  {
    var e := OctetEnd(s, i).value;
    DigitRunBounds(s, i);
    DottedChars(s, e, 3);
    var f := QuadEnd(s, i).value;
    assert s[i..f] == s[i..e] + s[e..f];
  }

  lemma {:induction false} DigitRunPrefix(s: string, k: nat, i: nat)
    requires i <= k <= |s| && i + DigitRun(s, i) <= k
    ensures DigitRun(s[..k], i) == DigitRun(s, i)
    decreases |s| - i
  {
    if i < k && IsDigit(s[i]) {
      DigitRunPrefix(s, k, i + 1);
    }
  }

  lemma {:induction false} DottedPrefix(s: string, k: nat, i: nat, n: nat)
    requires i <= |s| && DottedEnd(s, i, n).Some? && DottedEnd(s, i, n).value <= k <= |s|
    ensures DottedEnd(s[..k], i, n) == DottedEnd(s, i, n)
    decreases n
  {
    if n > 0 {
      var e := OctetEnd(s, i + 1).value;
      var t := s[..k];
      assert OctetEnd(t, i + 1) == Some(e) by {
        DigitRunPrefix(s, k, i + 1);
      }
      assert DottedEnd(t, i, n) == DottedEnd(t, e, n - 1) by {
        assert i < k && t[i] == '.';
      }
      DottedPrefix(s, k, e, n - 1);
    }
  }

  /** Cutting the text right after a matched quad does not change the match. */
  lemma QuadPrefix(s: string, k: nat)
    requires QuadEnd(s, 0).Some? && QuadEnd(s, 0).value <= k <= |s|
    ensures QuadEnd(s[..k], 0) == QuadEnd(s, 0)
  {
    var e := OctetEnd(s, 0).value;
    DottedChars(s, e, 3);
    DigitRunPrefix(s, k, 0);
    DottedPrefix(s, k, e, 3);
  }

  /** Every host of the shape holds a dotted quad, made of digits and dots,
      as its head; it starts and ends with a digit; and it has either no ':'
      and is a quad, or exactly one ':' between a quad and a digit string. */
  lemma HostShapeParts(h: string) returns (e: nat)
    requires IsHostShape(h)
    ensures e <= |h| && IsQuad(h[..e]) && DigitsAndDots(h[..e])
    ensures IsDigit(h[0]) && IsDigit(h[|h| - 1])
    ensures e == |h| ==> IsQuad(h) && ':' !in h
    ensures e < |h| ==> h[e] == ':' && IsDigits(h[e + 1..]) && ':' !in h[..e] && ':' !in h[e + 1..]
  {
    e := QuadEnd(h, 0).value;
    QuadChars(h, 0);
    QuadPrefix(h, e);
    assert h[..e] == h[0..e];
    assert h[..e][0] == h[0];
    assert DigitsAndDots(h[..e]) && IsDigit(h[..e][0]) by {
      assert h[..e][0] == h[0];
      OctetFirstDigit(h, 0);
    }
    if e == |h| {
      assert h[..e] == h;
    }
  }

  lemma OctetFirstDigit(s: string, i: nat)
    requires i <= |s| && QuadEnd(s, i).Some?
    ensures i < |s| && IsDigit(s[i])
  {
  }

  /** A host that holds no newline matches with `$` exactly when it matches the shape. */
  /** Every host of the shape passes the `$`-anchored host test. */
  lemma DollarHostOf(h: string)
    requires IsHostShape(h)
    ensures DollarHost(h)
  {
  }

  lemma DollarHostPlain(h: string)
    requires DollarHost(h) && '\n' !in h
    ensures IsHostShape(h)
  {
  }

  /** A host of the shape starts with a dotted quad. */
  lemma HostQuadHead(h: string) returns (e: nat)
    requires IsHostShape(h)
    ensures e <= |h| && IsQuad(h[..e])
  {
    e := QuadEnd(h, 0).value;
    QuadPrefix(h, e);
  }

  /** A text in which a dotted quad occurs has a dotted quad in it. */
  lemma QuadInText(x: string, q: string)
    requires IsQuad(q) && Contains(x, q)
    ensures HasQuadSubstring(x)
  {
    var i := ContainsIndex(x, q);
    assert 0 <= i <= i + |q| <= |x| && IsQuad(x[i..i + |q|]);
  }

  /** A dotted quad consists of digits and dots, and starts and ends with a digit. */
  lemma QuadDigitsAndDots(q: string)
    ensures IsQuad(q) ==> (DigitsAndDots(q) && ' ' !in q && ':' !in q && '-' !in q
      && IsDigit(q[0]) && IsDigit(q[|q| - 1]))
  {
    if IsQuad(q) {
      QuadChars(q, 0);
      OctetFirstDigit(q, 0);
      assert q[0..|q|] == q;
    }
  }

  /** A text with a host of the shape in it holds the host's dotted quad,
      which begins the host. */
  lemma HostQuadIn(x: string, h: string) returns (q: string)
    requires IsHostShape(h) && Contains(x, h)
    ensures IsQuad(q) && Contains(x, q) && StartsWith(h, q)
  {
    var e := HostQuadHead(h);
    q := h[..e];
    ContainsAt(h, q, 0);
    ContainsTrans(x, h, q);
  }

  /** A text with a host of the shape in it has a dotted quad in it. */
  lemma HostGivesQuad(x: string, h: string)
    requires IsHostShape(h) && Contains(x, h)
    ensures HasQuadSubstring(x)
  {
    var q := HostQuadIn(x, h);
    QuadInText(x, q);
  }

  /** Text after `a` that starts with neither a digit nor a dot leaves a
      digit run inside `a` as it is. */
  lemma {:induction false} DigitRunExtend(a: string, x: string, i: nat)
    requires i <= |a| && (x == [] || (!IsDigit(x[0]) && x[0] != '.'))
    ensures DigitRun(a + x, i) == DigitRun(a, i)
    decreases |a| - i
  {
    if i < |a| {
      assert (a + x)[i] == a[i];
      DigitRunExtend(a, x, i + 1);
    }
  }

  lemma {:induction false} DottedExtend(a: string, x: string, i: nat, k: nat)
    requires i <= |a| && (x == [] || (!IsDigit(x[0]) && x[0] != '.'))
    ensures DottedEnd(a + x, i, k) == DottedEnd(a, i, k)
    decreases k
  {
    if k > 0 && i < |a| {
      assert (a + x)[i] == a[i];
      if a[i] == '.' {
        DigitRunExtend(a, x, i + 1);
        match OctetEnd(a, i + 1)
        case None =>
        case Some(e) => DottedExtend(a, x, e, k - 1);
      }
    }
  }

  /** A quad followed by a character that cannot continue it still ends where it did. */
  lemma QuadExtend(a: string, x: string)
    requires IsQuad(a) && (x == [] || (!IsDigit(x[0]) && x[0] != '.'))
    ensures QuadEnd(a + x, 0) == Some(|a|)
  {
    DigitRunExtend(a, x, 0);
    DottedExtend(a, x, OctetEnd(a, 0).value, 3);
  }

  /** A quad, one ':' and a digit string make a host of the shape. */
  lemma QuadWithPort(a: string, b: string)
    requires IsQuad(a) && IsDigits(b)
    ensures IsHostShape(a + ":" + b)
  {
    var h := a + ":" + b;
    assert h == a + (":" + b);
    QuadExtend(a, ":" + b);
    assert h[|a| + 1..] == b;
  }

  /** Cutting after the quad ending at `e`, or after the quad, ':' and its
      whole digit run, leaves a host of the shape. */
  lemma CutShape(u: string, n: nat, e: nat)
    requires QuadEnd(u, 0) == Some(e) && n <= |u|
    requires n == e || (e < |u| && u[e] == ':' && DigitRun(u, e + 1) >= 1 && n == e + 1 + DigitRun(u, e + 1))
    ensures IsHostShape(u[..n])
  {
    QuadPrefix(u, n);
    if n == e {
      ShapeFromQuad(u[..n], e);
    } else {
      RunDigits(u, e + 1, n);
      QuadPortCut(u, n, e);
    }
  }

  /** A quad cut from `u` together with ':' and digits after it is a host. */
  lemma QuadPortCut(u: string, n: nat, e: nat)
    requires e < n <= |u| && QuadEnd(u[..n], 0) == Some(e)
    requires u[e] == ':' && IsDigits(u[e + 1..n])
    ensures IsHostShape(u[..n])
  {
    var h := u[..n];
    assert h[e + 1..] == u[e + 1..n];
    ShapeFromQuad(h, e);
  }

  /** A non-empty digit run is a digit string. */
  lemma RunDigits(u: string, i: nat, j: nat)
    requires i <= |u| && DigitRun(u, i) >= 1 && j == i + DigitRun(u, i)
    ensures IsDigits(u[i..j])
  {
    DigitRunBounds(u, i);
    var d := u[i..j];
    assert forall k :: 0 <= k < |d| ==> d[k] == u[i + k];
  }

  /** A quad that fills the text, or is followed by ':' and digits only, is a host. */
  lemma ShapeFromQuad(h: string, e: nat)
    requires QuadEnd(h, 0) == Some(e)
    requires e == |h| || (e < |h| && h[e] == ':' && IsDigits(h[e + 1..]))
    ensures IsHostShape(h)
  {
  }
}
