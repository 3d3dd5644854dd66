/** The ECMAScript string built-ins the analysis page relies on:
    `trim`, `indexOf`, `lastIndexOf`, `split` with a one-character separator,
    and the decimal spelling of array indices used as property keys.
    Strings are sequences of Unicode scalar values. */
module JsText {
  import opened Options

  /** WhiteSpace (section 12.2 of ECMA-262, including every space separator of
      category Zs) and LineTerminator (section 12.3): what `trim` removes. */
  predicate IsJsSpace(c: char) {
    || c == '\t' || c == '\U{B}' || c == '\U{C}' || c == ' ' || c == '\U{A0}' || c == '\U{FEFF}'
    || c == '\U{1680}' || ('\U{2000}' <= c <= '\U{200A}') || c == '\U{202F}' || c == '\U{205F}'
    || c == '\U{3000}'
    || c == '\n' || c == '\r' || c == '\U{2028}' || c == '\U{2029}'
  }

  ghost predicate AllSpace(s: string) {
    forall k :: 0 <= k < |s| ==> IsJsSpace(s[k])
  }

  /** The end of the run of white space that starts at `i`. */
  function SpaceRunEnd(s: string, i: nat): (j: nat)
    requires i <= |s|
    ensures i <= j <= |s|
    ensures forall k :: i <= k < j ==> IsJsSpace(s[k])
    ensures j == |s| || !IsJsSpace(s[j])
    decreases |s| - i
  {
    if i < |s| && IsJsSpace(s[i]) then SpaceRunEnd(s, i + 1) else i
  }

  /** The start of the run of white space that ends at `j`, not going below
      `lo`. */
  function SpaceRunStart(s: string, lo: nat, j: nat): (i: nat)
    requires lo <= j <= |s|
    ensures lo <= i <= j
    ensures forall k :: i <= k < j ==> IsJsSpace(s[k])
    ensures i == lo || !IsJsSpace(s[i - 1])
  {
    if lo < j && IsJsSpace(s[j - 1]) then SpaceRunStart(s, lo, j - 1) else j
  }

  /** `r` is what is left of `s` once the white space at both ends is gone:
      the piece of `s` starting at `i`, surrounded only by white space, that
      neither starts nor ends with white space. */
  ghost predicate TrimAt(r: string, s: string, i: nat) {
    && i + |r| <= |s| && s[i..i + |r|] == r
    && (r == [] || (!IsJsSpace(r[0]) && !IsJsSpace(r[|r| - 1])))
    && (forall k :: 0 <= k < i ==> IsJsSpace(s[k]))
    && (forall k :: i + |r| <= k < |s| ==> IsJsSpace(s[k]))
  }

  ghost predicate IsTrimOf(r: string, s: string) {
    exists i :: TrimAt(r, s, i)
  }

  /** String.prototype.trim. */
  function Trim(s: string): (r: string)
    ensures IsTrimOf(r, s)
  {
    var a := SpaceRunEnd(s, 0);
    var b := SpaceRunStart(s, a, |s|);
    var r := s[a..b];
    assert a < b ==> r[0] == s[a] && r[|r| - 1] == s[b - 1];
    assert TrimAt(r, s, a);
    r
  }

  /** At most one string is the trim of `s`, so `IsTrimOf` defines `trim`. */
  lemma TrimOfUnique(r1: string, r2: string, s: string)
    requires IsTrimOf(r1, s) && IsTrimOf(r2, s)
    ensures r1 == r2
  {
    var i1 :| TrimAt(r1, s, i1);
    var i2 :| TrimAt(r2, s, i2);
    TrimAtUnique(r1, r2, s, i1, i2);
  }

  lemma TrimAtUnique(r1: string, r2: string, s: string, i1: nat, i2: nat)
    requires TrimAt(r1, s, i1) && TrimAt(r2, s, i2)
    ensures r1 == r2
  {
    TrimAtEmptyIff(r1, s, i1);
    TrimAtEmptyIff(r2, s, i2);
    if r1 != [] && r2 != [] {
      TrimAtEnds(r1, s, i1);
      TrimAtEnds(r2, s, i2);
    }
  }

  /** A trim is empty exactly when the whole string is white space. */
  lemma TrimAtEmptyIff(r: string, s: string, i: nat)
    requires TrimAt(r, s, i)
    ensures r == [] <==> AllSpace(s)
  {
    if r != [] {
      assert s[i] == r[0];
    }
  }

  /** A non-empty trim starts and ends with characters of `s` that are not
      white space. */
  lemma TrimAtEnds(r: string, s: string, i: nat)
    requires TrimAt(r, s, i) && r != []
    ensures !IsJsSpace(s[i]) && !IsJsSpace(s[i + |r| - 1])
  {
    assert s[i] == r[0] && s[i + |r| - 1] == r[|r| - 1];
  }

  /** Trimming twice is trimming once. */
  lemma TrimIdempotent(s: string)
    ensures Trim(Trim(s)) == Trim(s)
  {
    var t := Trim(s);
    assert t[0..0 + |t|] == t;
    assert TrimAt(t, t, 0);
    TrimOfUnique(Trim(t), t, t);
  }

  /** The trim is empty exactly when the whole string is white space. */
  lemma TrimEmptyIff(s: string)
    ensures Trim(s) == [] <==> AllSpace(s)
  {
    var t := Trim(s);
    var i :| TrimAt(t, s, i);
    TrimAtEmptyIff(t, s, i);
  }

  /** String.prototype.indexOf for one character; `None` where the source gets -1. */
  function IndexOf(s: string, c: char): (r: Option<nat>)
    ensures r.Some? ==> r.value < |s| && s[r.value] == c && c !in s[..r.value]
    ensures r.None? <==> c !in s
  {
    if |s| == 0 then None
    else if s[0] == c then Some(0)
    else
      match IndexOf(s[1..], c)
      case None => None
      case Some(i) =>
        assert s[..i + 1] == [s[0]] + s[1..][..i];
        Some(i + 1)
  }

  /** String.prototype.lastIndexOf for one character; `None` where the source gets -1. */
  function LastIndexOf(s: string, c: char): (r: Option<nat>)
    ensures r.Some? ==> r.value < |s| && s[r.value] == c && c !in s[r.value + 1..]
    ensures r.None? <==> c !in s
  {
    if |s| == 0 then None
    else if s[|s| - 1] == c then Some(|s| - 1)
    else
      var r := LastIndexOf(s[..|s| - 1], c);
      assert s == s[..|s| - 1] + [s[|s| - 1]];
      if r.Some? then
        assert s[r.value + 1..] == s[..|s| - 1][r.value + 1..] + [s[|s| - 1]];
        r
      else r
  }

  /** String.prototype.split with a one-character separator: the pieces
      between separators, always at least one (`"".split(".")` is `[""]`). */
  function Split(s: string, sep: char): (parts: seq<string>)
    ensures |parts| >= 1
    ensures forall k :: 0 <= k < |parts| ==> sep !in parts[k]
    decreases |s|
  {
    match IndexOf(s, sep)
    case None => [s]
    case Some(i) => [s[..i]] + Split(s[i + 1..], sep)
  }

  /** Array.prototype.join with a one-character separator. */
  function Join(parts: seq<string>, sep: char): string
    requires |parts| >= 1
  {
    if |parts| == 1 then parts[0] else parts[0] + [sep] + Join(parts[1..], sep)
  }

  /** Joining the pieces puts the string back together. */
  lemma {:induction false} SplitThenJoin(s: string, sep: char)
    ensures Join(Split(s, sep), sep) == s
    decreases |s|
  {
    var r := IndexOf(s, sep);
    if r.Some? {
      var i := r.value;
      var rest := s[i + 1..];
      assert Split(s, sep) == [s[..i]] + Split(rest, sep);
      SplitThenJoin(rest, sep);
      assert s == s[..i] + [sep] + rest;
    }
  }

  /** Splitting a join of separator-free pieces gives the pieces back. */
  lemma {:induction false} JoinThenSplit(parts: seq<string>, sep: char)
    requires |parts| >= 1
    requires forall k :: 0 <= k < |parts| ==> sep !in parts[k]
    ensures Split(Join(parts, sep), sep) == parts
  {
    var s := Join(parts, sep);
    if |parts| == 1 {
      assert IndexOf(s, sep) == None;
    } else {
      var p := parts[0];
      var rest := Join(parts[1..], sep);
      assert s == p + [sep] + rest;
      var r := IndexOf(s, sep);
      assert s[|p|] == sep;
      assert r.Some? && r.value <= |p|;
      assert s[..|p|] == p;
      assert s[|p| + 1..] == rest;
      JoinThenSplit(parts[1..], sep);
    }
  }

  /** The first piece of a split is the longest separator-free prefix. */
  lemma SplitFirstPiece(s: string, sep: char)
    ensures var p := Split(s, sep)[0];
      && |p| <= |s| && p == s[..|p|] && sep !in p
      && (|p| == |s| || s[|p|] == sep)
  {
  }

  predicate IsDigit(c: char) {
    '0' <= c <= '9'
  }

  predicate AllDigits(t: string) {
    forall k :: 0 <= k < |t| ==> IsDigit(t[k])
  }

  function DigitValue(c: char): (d: nat)
    requires IsDigit(c)
    ensures d < 10
  {
    c as int - '0' as int
  }

  function DigitChar(d: nat): (c: char)
    requires d < 10
    ensures IsDigit(c) && DigitValue(c) == d
  {
    ('0' as int + d) as char
  }

  /** The value of a string of decimal digits (leading zeros allowed). */
  function DigitsToNat(t: string): nat
    requires AllDigits(t)
  {
    if |t| == 0 then 0 else DigitsToNat(t[..|t| - 1]) * 10 + DigitValue(t[|t| - 1])
  }

  /** Number::toString on a non-negative integer: the canonical decimal
      spelling, which is how an array index becomes a property key. */
  function NatToString(n: nat): (r: string)
    ensures |r| > 0 && AllDigits(r)
    ensures |r| > 1 ==> r[0] != '0'
  {
    if n < 10 then [DigitChar(n)] else NatToString(n / 10) + [DigitChar(n % 10)]
  }

  /** Reading the spelling back gives the number. */
  lemma {:induction false} NatToStringRoundTrip(n: nat)
    ensures DigitsToNat(NatToString(n)) == n
  {
    if n >= 10 {
      NatToStringRoundTrip(n / 10);
      var r := NatToString(n);
      assert r[..|r| - 1] == NatToString(n / 10);
    }
  }

  /** Distinct indices have distinct keys. */
  lemma NatToStringInjective(a: nat, b: nat)
    requires NatToString(a) == NatToString(b)
    ensures a == b
  {
    NatToStringRoundTrip(a);
    NatToStringRoundTrip(b);
  }
}
