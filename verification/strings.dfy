/**
 * Character-level helpers of the segmentation engine: the fixed whitespace
 * table, Python-style `strip` and `lstrip(chars)`, and `''.join`.
 */
module Strings {

  /** U+3000 IDEOGRAPHIC SPACE, the full-width space of Chinese typesetting. */
  const FullWidthSpace: char := '\U{3000}'

  /** The whitespace characters `str.strip()` removes in this model. */
  const Whitespace: set<char> := {' ', '\t', '\n', '\r', '\U{000B}', '\U{000C}', FullWidthSpace}

  predicate IsWs(c: char) {
    c in Whitespace
  }

  predicate AllWs(s: string) {
    forall i :: 0 <= i < |s| ==> IsWs(s[i])
  }

  /** No line break inside `s`. */
  predicate NoNewline(s: string) {
    '\n' !in s
  }

  /** A string with no whitespace at either end. */
  predicate IsStripped(s: string) {
    s == "" || (!IsWs(s[0]) && !IsWs(s[|s| - 1]))
  }

  predicate StartsWith(s: string, prefix: string) {
    |prefix| <= |s| && s[..|prefix|] == prefix
  }

  predicate EndsWith(s: string, suffix: string) {
    |suffix| <= |s| && s[|s| - |suffix|..] == suffix
  }

  /** The first index at or after `from` holding a character outside `chars`. */
  function SkipChars(s: string, chars: set<char>, from: nat): (k: nat)
    requires from <= |s|
    ensures from <= k <= |s|
    ensures forall i :: from <= i < k ==> s[i] in chars
    ensures k < |s| ==> s[k] !in chars
    decreases |s| - from
  {
    if from < |s| && s[from] in chars then SkipChars(s, chars, from + 1) else from
  }

  /**
   * Python's `str.lstrip(chars)`: drops the longest prefix whose characters
   * all belong to `chars`.
   */
  function LStrip(s: string, chars: set<char>): (r: string)
    ensures |r| <= |s| && r == s[|s| - |r|..]
    ensures forall i :: 0 <= i < |s| - |r| ==> s[i] in chars
    ensures r == "" || r[0] !in chars
  {
    s[SkipChars(s, chars, 0)..]
  }

  /**
   * Python's `str.strip()` over the fixed whitespace table: whitespace is
   * removed from both ends. The result has no whitespace at either end, and
   * it is empty exactly when `s` is all whitespace.
   */
  function Strip(s: string): (r: string)
    ensures IsStripped(r)
    ensures r == "" <==> AllWs(s)
    ensures |r| <= |s|
  {
    if |s| > 0 && IsWs(s[0]) then Strip(s[1..])
    else if |s| > 0 && IsWs(s[|s| - 1]) then Strip(s[..|s| - 1])
    else s
  }

  /** Removing leading whitespace never changes what `strip` returns. */
  lemma {:induction false} StripIgnoresWsPrefix(p: string, s: string)
    requires AllWs(p)
    ensures Strip(p + s) == Strip(s)
  {
    if |p| > 0 {
      assert (p + s)[0] == p[0];
      assert (p + s)[1..] == p[1..] + s;
      StripIgnoresWsPrefix(p[1..], s);
    } else {
      assert p + s == s;
    }
  }

  /** Whitespace at the front and at the back of `s`, around `s[i..j]`. */
  predicate WsAround(s: string, i: nat, j: nat) {
    i <= j <= |s| && AllWs(s[..i]) && AllWs(s[j..])
  }

  /**
   * `strip` removes whitespace at the two ends and nothing else: its result
   * is a contiguous piece of `s` with only whitespace before and after it.
   */
  lemma {:induction false} StripInfix(s: string)
    ensures exists i: nat, j: nat :: WsAround(s, i, j) && Strip(s) == s[i..j]
    decreases |s|
  {
    if |s| > 0 && IsWs(s[0]) {
      StripInfix(s[1..]);
      var i: nat, j: nat :| WsAround(s[1..], i, j) && Strip(s[1..]) == s[1..][i..j];
      StripInfixFront(s, i, j);
    } else if |s| > 0 && IsWs(s[|s| - 1]) {
      StripInfix(s[..|s| - 1]);
      var i: nat, j: nat :| WsAround(s[..|s| - 1], i, j) && Strip(s[..|s| - 1]) == s[..|s| - 1][i..j];
      StripInfixBack(s, i, j);
    } else {
      assert WsAround(s, 0, |s|) && Strip(s) == s[0..|s|];
    }
  }

  lemma StripInfixFront(s: string, i: nat, j: nat)
    requires |s| > 0 && IsWs(s[0])
    requires WsAround(s[1..], i, j) && Strip(s[1..]) == s[1..][i..j]
    ensures WsAround(s, i + 1, j + 1) && Strip(s) == s[i + 1..j + 1]
  {
    StripFront(s);
    SliceAfterHead(s, i, j);
    AllWsCons(s, i);
  }

  lemma StripInfixBack(s: string, i: nat, j: nat)
    requires |s| > 0 && !IsWs(s[0]) && IsWs(s[|s| - 1])
    requires WsAround(s[..|s| - 1], i, j) && Strip(s[..|s| - 1]) == s[..|s| - 1][i..j]
    ensures WsAround(s, i, j) && Strip(s) == s[i..j]
  {
    StripBack(s);
    SliceBeforeLast(s, i, j);
    AllWsSnoc(s, j);
  }

  lemma StripFront(s: string)
    requires |s| > 0 && IsWs(s[0])
    ensures Strip(s) == Strip(s[1..])
  {
  }

  lemma StripBack(s: string)
    requires |s| > 0 && !IsWs(s[0]) && IsWs(s[|s| - 1])
    ensures Strip(s) == Strip(s[..|s| - 1])
  {
  }

  lemma SliceAfterHead(s: string, i: nat, j: nat)
    requires |s| > 0 && i <= j <= |s| - 1
    ensures s[1..][i..j] == s[i + 1..j + 1] && s[1..][j..] == s[j + 1..]
  {
  }

  lemma SliceBeforeLast(s: string, i: nat, j: nat)
    requires |s| > 0 && i <= j <= |s| - 1
    ensures s[..|s| - 1][i..j] == s[i..j] && s[..|s| - 1][..i] == s[..i]
  {
  }

  /** Whitespace followed by a whitespace prefix of the rest is a whitespace prefix. */
  lemma AllWsCons(s: string, i: nat)
    requires |s| > 0 && IsWs(s[0]) && i <= |s| - 1 && AllWs(s[1..][..i])
    ensures AllWs(s[..i + 1])
  {
    var front := s[..i + 1];
    forall k | 0 <= k < |front| ensures IsWs(front[k]) {
      if k > 0 {
        assert front[k] == s[1..][..i][k - 1];
      }
    }
  }

  /** A whitespace suffix of all but the last character, then a whitespace last character. */
  lemma AllWsSnoc(s: string, j: nat)
    requires |s| > 0 && IsWs(s[|s| - 1]) && j <= |s| - 1 && AllWs(s[..|s| - 1][j..])
    ensures AllWs(s[j..])
  {
    var back := s[j..];
    forall k | 0 <= k < |back| ensures IsWs(back[k]) {
      if k < |back| - 1 {
        assert back[k] == s[..|s| - 1][j..][k];
      }
    }
  }

  /** `strip` leaves an already stripped string unchanged. */
  lemma StripOfStripped(s: string)
    requires IsStripped(s)
    ensures Strip(s) == s
  {
  }

  /** `strip` is idempotent. */
  lemma StripIdempotent(s: string)
    ensures Strip(Strip(s)) == Strip(s)
  {
    StripOfStripped(Strip(s));
  }

  /** `''.join(parts)`: the parts glued together with no separator. */
  function Concat(parts: seq<string>): string
  {
    if |parts| == 0 then "" else parts[0] + Concat(parts[1..])
  }

  /** `sep.join(parts)`. */
  function Join(sep: string, parts: seq<string>): string
  {
    if |parts| == 0 then ""
    else if |parts| == 1 then parts[0]
    else parts[0] + sep + Join(sep, parts[1..])
  }

  lemma StringAssoc(a: string, b: string, c: string)
    ensures (a + b) + c == a + (b + c)
  {
  }

  lemma {:induction false} ConcatAppend(a: seq<string>, b: seq<string>)
    ensures Concat(a + b) == Concat(a) + Concat(b)
  {
    if |a| == 0 {
      assert a + b == b;
    } else {
      assert (a + b)[1..] == a[1..] + b;
      ConcatAppend(a[1..], b);
    }
  }

  lemma ConcatSingle(s: string)
    ensures Concat([s]) == s
  {
    assert [s][1..] == [];
  }

  /** Appending one part appends its text. */
  lemma ConcatSnoc(a: seq<string>, s: string)
    ensures Concat(a + [s]) == Concat(a) + s
  {
    ConcatAppend(a, [s]);
    ConcatSingle(s);
  }

  /** Every part is non-empty and stripped. */
  predicate AllNonEmptyStripped(parts: seq<string>) {
    forall i :: 0 <= i < |parts| ==> parts[i] != "" && IsStripped(parts[i])
  }

  lemma AllNonEmptyStrippedAppend(a: seq<string>, b: seq<string>)
    requires AllNonEmptyStripped(a) && AllNonEmptyStripped(b)
    ensures AllNonEmptyStripped(a + b)
  {
    forall i | 0 <= i < |a + b| ensures (a + b)[i] != "" && IsStripped((a + b)[i]) {
      if i >= |a| {
        assert (a + b)[i] == b[i - |a|];
      }
    }
  }

  /**
   * Gluing non-empty stripped parts gives a stripped string, which is
   * non-empty as soon as there is a part.
   */
  lemma {:induction false} ConcatStripped(parts: seq<string>)
    requires AllNonEmptyStripped(parts)
    ensures IsStripped(Concat(parts))
    ensures |parts| > 0 ==> Concat(parts) != ""
  {
    if |parts| > 0 {
      var rest := Concat(parts[1..]);
      ConcatStripped(parts[1..]);
      var c := parts[0] + rest;
      assert c[0] == parts[0][0];
      if rest == "" {
        assert c == parts[0];
      } else {
        assert c[|c| - 1] == rest[|rest| - 1];
      }
    }
  }

  /** Gluing parts whose last part is non-empty ends in that part's last character. */
  lemma ConcatLastChar(a: seq<string>, s: string)
    requires s != ""
    ensures Concat(a + [s]) != ""
    ensures Concat(a + [s])[|Concat(a + [s])| - 1] == s[|s| - 1]
  {
    ConcatSnoc(a, s);
  }
}
