/**
 * The JavaScript string primitives the review engine relies on:
 * `String.prototype.trim`, `split` on a one-character separator,
 * `Array.prototype.join`, and the decimal rendering of an integer inside a
 * template literal. Each comes with the inverse or characterisation that
 * pins down what it computes.
 */
module Strings {
  import opened Wrappers

  /** The characters `trim` removes: ECMAScript WhiteSpace and LineTerminator. */
  predicate IsWhitespace(c: char) {
    c == '\t' || c == '\n' || c == '\U{000B}' || c == '\U{000C}' || c == '\r' || c == ' '
    || c == '\U{00A0}' || c == '\U{1680}' || ('\U{2000}' <= c <= '\U{200A}')
    || c == '\U{2028}' || c == '\U{2029}' || c == '\U{202F}' || c == '\U{205F}'
    || c == '\U{3000}' || c == '\U{FEFF}'
  }

  predicate AllWhitespace(s: string) {
    forall k :: 0 <= k < |s| ==> IsWhitespace(s[k])
  }

  /** A string that `trim` leaves as it is: it neither starts nor ends with whitespace. */
  predicate IsTrimmed(s: string) {
    s == [] || (!IsWhitespace(s[0]) && !IsWhitespace(s[|s| - 1]))
  }

  /** `t` occurs in `s` as a contiguous piece. */
  ghost predicate IsInfix(t: string, s: string) {
    exists i, j :: 0 <= i <= j <= |s| && s[i..j] == t
  }

  /** `s` ends with `t`. */
  predicate EndsWith(s: string, t: string) {
    |t| <= |s| && s[|s| - |t|..] == t
  }

  /** Appending to an accumulator that extends `before` by `done` extends it by `done + step`; it only guides the prover. */
  lemma AppendStep<T>(acc: seq<T>, before: seq<T>, done: seq<T>, step: seq<T>)
    requires acc == before + done
    ensures acc + step == before + (done + step)
  {
  }

  lemma InfixOfConcat(a: string, t: string, b: string)
    ensures IsInfix(t, a + t + b)
  {
    var s := a + t + b;
    assert s[|a|..|a| + |t|] == t;
  }

  /** A piece of `x` is a piece of anything `x` is a part of. */
  lemma InfixExtend(t: string, x: string, y: string)
    requires IsInfix(t, x)
    ensures IsInfix(t, x + y) && IsInfix(t, y + x)
  {
    var i, j :| 0 <= i <= j <= |x| && x[i..j] == t;
    assert (x + y)[i..j] == t;
    assert (y + x)[|y| + i..|y| + j] == t;
  }

  // ---------------------------------------------------------------- trim

  /** The index of the first character at or after `i` that is not whitespace, or `|s|`: `trimStart` cuts what lies before it. */
  function SkipLeading(s: string, i: nat): (r: nat)
    requires i <= |s|
    ensures i <= r <= |s|
    ensures forall k :: i <= k < r ==> IsWhitespace(s[k])
    ensures r < |s| ==> !IsWhitespace(s[r])
    decreases |s| - i
  {
    if i < |s| && IsWhitespace(s[i]) then SkipLeading(s, i + 1) else i
  }

  /** Looking back from `j`, but not past `i`: the end of the text before the trailing whitespace, which `trimEnd` cuts. */
  function SkipTrailing(s: string, i: nat, j: nat): (r: nat)
    requires i <= j <= |s|
    ensures i <= r <= j
    ensures forall k :: r <= k < j ==> IsWhitespace(s[k])
    ensures r > i ==> !IsWhitespace(s[r - 1])
    decreases j - i
  {
    if j > i && IsWhitespace(s[j - 1]) then SkipTrailing(s, i, j - 1) else j
  }

  /**
   * `String.prototype.trim`: the result is itself trimmed, and a string that
   * is already trimmed comes back unchanged; `TrimIsInfix` says what is cut.
   */
  function Trim(s: string): (r: string)
    ensures IsTrimmed(r)
    ensures IsTrimmed(s) ==> r == s
  {
    var i := SkipLeading(s, 0);
    s[i..SkipTrailing(s, i, |s|)]
  }

  /** The result of `Trim` is the piece of `s` left after removing whitespace on both ends. */
  lemma TrimIsInfix(s: string)
    ensures exists i, j :: 0 <= i <= j <= |s| && Trim(s) == s[i..j]
                           && AllWhitespace(s[..i]) && AllWhitespace(s[j..])
  {
    var i := SkipLeading(s, 0);
    var j := SkipTrailing(s, i, |s|);
    assert forall k :: 0 <= k < i ==> s[..i][k] == s[k];
    assert forall k :: 0 <= k < |s| - j ==> s[j..][k] == s[j + k];
    assert Trim(s) == s[i..j];
  }

  /** Trimming text that is wrapped in one whitespace character on each side, around a trimmed core, gives back the core. */
  lemma TrimWrapped(pre: char, core: string, post: char)
    requires IsWhitespace(pre) && IsWhitespace(post)
    requires core != [] && IsTrimmed(core)
    ensures Trim([pre] + core + [post]) == core
  {
    var s := [pre] + core + [post];
    var n := |s|;
    assert s[0] == pre && s[1] == core[0];
    assert s[n - 1] == post && s[n - 2] == core[|core| - 1];
    assert SkipLeading(s, 1) == 1;
    assert SkipLeading(s, 0) == 1;
    assert SkipTrailing(s, 1, n - 1) == n - 1;
    assert SkipTrailing(s, 1, n) == n - 1;
    assert s[1..n - 1] == core;
  }

  /** `c` does not occur in `s`. */
  predicate Lacks(s: string, c: char) {
    forall k :: 0 <= k < |s| ==> s[k] != c
  }

  lemma LacksConcat(a: string, b: string, c: char)
    requires Lacks(a, c) && Lacks(b, c)
    ensures Lacks(a + b, c)
  {
    assert forall k :: |a| <= k < |a + b| ==> (a + b)[k] == b[k - |a|];
  }

  /** A character missing from `s` is missing from every slice of it. */
  lemma LacksSlice(s: string, c: char, i: nat, j: nat)
    requires i <= j <= |s| && Lacks(s, c)
    ensures Lacks(s[i..j], c)
  {
    assert forall k :: 0 <= k < j - i ==> s[i..j][k] == s[i + k];
  }

  // --------------------------------------------------------- split / join

  /** The position of the first `c` at or after `i`, or `|s|` when there is none. */
  function FindFrom(s: string, c: char, i: nat): (r: nat)
    requires i <= |s|
    ensures i <= r <= |s|
    ensures forall k :: i <= k < r ==> s[k] != c
    ensures r < |s| ==> s[r] == c
    decreases |s| - i
  {
    if i == |s| || s[i] == c then i else FindFrom(s, c, i + 1)
  }

  /** `s.indexOf(c)`, with `|s|` in place of `-1` for a character that does not occur. */
  function Find(s: string, c: char): (r: nat)
    ensures r <= |s|
  {
    FindFrom(s, c, 0)
  }

  /** The first `c` is where `Find` stops. */
  lemma FindAt(s: string, c: char, i: nat)
    requires i <= |s| && (i < |s| ==> s[i] == c)
    requires forall k :: 0 <= k < i ==> s[k] != c
    ensures Find(s, c) == i
  {
  }

  /**
   * `s.split(sep)` for a one-character separator: the pieces between the
   * separators, always at least one (`"".split(",")` is `[""]`); none of them
   * contains the separator (`SplitPiecesFree`).
   */
  function Split(s: string, sep: char): (parts: seq<string>)
    ensures |parts| >= 1
    decreases |s|
  {
    var i := Find(s, sep);
    if i == |s| then [s] else [s[..i]] + Split(s[i + 1..], sep)
  }

  /** No piece of a split contains the separator. */
  lemma {:induction false} SplitPiecesFree(s: string, sep: char)
    ensures forall k :: 0 <= k < |Split(s, sep)| ==> Lacks(Split(s, sep)[k], sep)
    decreases |s|
  {
    var i := Find(s, sep);
    if i < |s| {
      SplitPiecesFree(s[i + 1..], sep);
      var rest := Split(s[i + 1..], sep);
      assert Split(s, sep) == [s[..i]] + rest;
      forall k | 0 <= k < |Split(s, sep)|
        ensures Lacks(Split(s, sep)[k], sep)
      {
        if k > 0 {
          assert Split(s, sep)[k] == rest[k - 1];
        }
      }
    }
  }

  /** A string without the separator is its own only piece. */
  lemma SplitWhole(s: string, sep: char)
    requires Lacks(s, sep)
    ensures Split(s, sep) == [s]
  {
    FindAt(s, sep, |s|);
  }

  /** A split at the first separator: the piece before it, then the split of the rest. */
  lemma SplitAt(s: string, sep: char, i: nat)
    requires i < |s| && s[i] == sep && Lacks(s[..i], sep)
    ensures Split(s, sep) == [s[..i]] + Split(s[i + 1..], sep)
  {
    assert forall k :: 0 <= k < i ==> s[k] == s[..i][k];
    FindAt(s, sep, i);
  }

  /** `parts.join(sep)`: the parts with one separator between neighbours. */
  function Join(parts: seq<string>, sep: char): string
  {
    if |parts| == 0 then ""
    else if |parts| == 1 then parts[0]
    else parts[0] + [sep] + Join(parts[1..], sep)
  }

  /** Joining the pieces of a split restores the string. */
  lemma {:induction false} JoinSplit(s: string, sep: char)
    ensures Join(Split(s, sep), sep) == s
    decreases |s|
  {
    var i := Find(s, sep);
    if i < |s| {
      var rest := Split(s[i + 1..], sep);
      var parts := [s[..i]] + rest;
      JoinSplit(s[i + 1..], sep);
      assert Split(s, sep) == parts;
      assert parts[0] == s[..i] && parts[1..] == rest;
      assert Join(parts, sep) == s[..i] + [sep] + Join(rest, sep);
      assert s == s[..i] + [sep] + s[i + 1..];
    }
  }

  /** Splitting a join of separator-free parts gives back the parts. */
  lemma {:induction false} SplitJoin(parts: seq<string>, sep: char)
    requires |parts| >= 1
    requires forall k :: 0 <= k < |parts| ==> Lacks(parts[k], sep)
    ensures Split(Join(parts, sep), sep) == parts
    decreases |parts|
  {
    if |parts| == 1 {
      SplitWhole(parts[0], sep);
    } else {
      var p := parts[0];
      var rest := Join(parts[1..], sep);
      SplitAfterPiece(p, rest, sep);
      assert Join(parts, sep) == p + [sep] + rest;
      SplitJoin(parts[1..], sep);
    }
  }

  /** Where the first separator comes at the end of `a`, the split starts with `a`. */
  lemma SplitAfterPiece(a: string, b: string, sep: char)
    requires Lacks(a, sep)
    ensures Split(a + [sep] + b, sep) == [a] + Split(b, sep)
  {
    var s := a + [sep] + b;
    assert s[|a|] == sep;
    assert s[..|a|] == a;
    SplitAt(s, sep, |a|);
    assert s[|a| + 1..] == b;
  }

  /** Joining two non-empty lists of parts one after the other puts one separator between their joins. */
  lemma {:induction false} JoinConcat(p: seq<string>, q: seq<string>, sep: char)
    requires |p| >= 1 && |q| >= 1
    ensures Join(p + q, sep) == Join(p, sep) + [sep] + Join(q, sep)
    decreases |p|
  {
    assert (p + q)[0] == p[0];
    assert (p + q)[1..] == p[1..] + q;
    if |p| > 1 {
      JoinConcat(p[1..], q, sep);
      var head := p[0] + [sep];
      assert Join(p + q, sep) == head + Join(p[1..] + q, sep);
      assert Join(p, sep) == head + Join(p[1..], sep);
      AppendStep(Join(p, sep), head, Join(p[1..], sep), [sep] + Join(q, sep));
      assert Join(p[1..], sep) + [sep] + Join(q, sep) == Join(p[1..], sep) + ([sep] + Join(q, sep));
      assert Join(p, sep) + [sep] + Join(q, sep) == Join(p, sep) + ([sep] + Join(q, sep));
    } else {
      assert p + q == [p[0]] + q;
    }
  }

  /** Splitting the join of two lists of separator-free parts, joined by one more separator, gives back both lists in order. */
  lemma SplitJoinConcat(p: seq<string>, q: seq<string>, sep: char)
    requires |p| >= 1 && |q| >= 1
    requires forall k :: 0 <= k < |p| ==> Lacks(p[k], sep)
    requires forall k :: 0 <= k < |q| ==> Lacks(q[k], sep)
    ensures Split(Join(p, sep) + [sep] + Join(q, sep), sep) == p + q
  {
    JoinConcat(p, q, sep);
    assert forall k :: 0 <= k < |p + q| ==> (p + q)[k] == if k < |p| then p[k] else q[k - |p|];
    SplitJoin(p + q, sep);
  }

  /** Splitting `a`, a separator, then `b` splits `a` and `b` separately: pieces keep their input order. */
  lemma SplitConcat(a: string, b: string, sep: char)
    ensures Split(a + [sep] + b, sep) == Split(a, sep) + Split(b, sep)
  {
    JoinSplit(a, sep);
    JoinSplit(b, sep);
    SplitPiecesFree(a, sep);
    SplitPiecesFree(b, sep);
    SplitJoinConcat(Split(a, sep), Split(b, sep), sep);
  }

  // ------------------------------------------------------ decimal numbers

  predicate IsDigit(c: char) {
    '0' <= c <= '9'
  }

  predicate AllDigits(s: string) {
    forall k :: 0 <= k < |s| ==> IsDigit(s[k])
  }

  function DigitChar(d: nat): (c: char)
    requires d < 10
    ensures IsDigit(c) && (c as int) - ('0' as int) == d
  {
    (('0' as int) + d) as char
  }

  /** The decimal digits of `n`, most significant first, without leading zeros. */
  function NatToDecimal(n: nat): (s: string)
    ensures s != [] && AllDigits(s)
    ensures s[0] == '0' ==> n == 0
  {
    if n < 10 then [DigitChar(n)] else NatToDecimal(n / 10) + [DigitChar(n % 10)]
  }

  /** An integer as a template literal shows it: a minus sign before negative numbers. */
  function IntToDecimal(i: int): (s: string)
    ensures s != [] && Lacks(s, ' ') && Lacks(s, '\n')
  {
    if i < 0 then "-" + NatToDecimal(-i) else NatToDecimal(i)
  }

  /** The value of a string of decimal digits. */
  function DecimalToNat(s: string): nat
    requires AllDigits(s)
  {
    if s == [] then 0
    else DecimalToNat(s[..|s| - 1]) * 10 + ((s[|s| - 1] as int) - ('0' as int))
  }

  /** Reads an optionally negative decimal integer; anything else (such as `"undefined"`) is `None`. */
  function ParseInt(s: string): Option<int>
  {
    if |s| >= 2 && s[0] == '-' && AllDigits(s[1..]) then Some(-(DecimalToNat(s[1..]) as int))
    else if s != [] && AllDigits(s) then Some(DecimalToNat(s))
    else None
  }

  lemma {:induction false} DecimalRoundTrip(n: nat)
    ensures DecimalToNat(NatToDecimal(n)) == n
  {
    if n >= 10 {
      var s := NatToDecimal(n);
      assert s[..|s| - 1] == NatToDecimal(n / 10);
      DecimalRoundTrip(n / 10);
    }
  }

  /** A rendered natural number reads back as itself. */
  lemma NatReadsBack(n: nat)
    ensures ParseInt(NatToDecimal(n)) == Some(n)
  {
    var s := NatToDecimal(n);
    assert s[0] != '-';
    DecimalRoundTrip(n);
  }

  /** A minus sign before a rendered positive number reads back as its negation. */
  lemma NegatedReadsBack(n: nat)
    ensures ParseInt("-" + NatToDecimal(n)) == Some(-(n as int))
  {
    var digits := NatToDecimal(n);
    var s := "-" + digits;
    assert s[1..] == digits;
    DecimalRoundTrip(n);
  }

  /** The rendering of an integer reads back as that integer. */
  lemma IntRoundTrip(i: int)
    ensures ParseInt(IntToDecimal(i)) == Some(i)
  {
    if i < 0 {
      NegatedReadsBack(-i);
    } else {
      NatReadsBack(i);
    }
  }
}
