/**
 * The JavaScript string built-ins the migration engine relies on, written out over
 * `seq<char>`: searching (`indexOf`, `includes`, `lastIndexOf`), `replace` with a string
 * pattern (first occurrence only), `split` on one character, `Array.prototype.join`,
 * `substring(0, n)`, `trim`, and the decimal rendering of an integer inside a template
 * literal. One `char` stands for one UTF-16 code unit.
 */
module Text {

  /** Characters matched by `\w`, which decide where a regular-expression `\b` lies. */
  predicate IsWordChar(c: char) {
    ('a' <= c <= 'z') || ('A' <= c <= 'Z') || ('0' <= c <= '9') || c == '_'
  }

  /** The two quote characters accepted by the class `["']`. */
  predicate IsQuote(c: char) {
    c == '"' || c == '\''
  }

  /** The characters that `.` in a regular expression refuses. */
  predicate IsLineTerminator(c: char) {
    c == '\n' || c == '\r' || c == '\U{2028}' || c == '\U{2029}'
  }

  /** ASCII white space, the part of `String.prototype.trim`'s white space this model covers. */
  predicate IsTrimSpace(c: char) {
    c == ' ' || c == '\t' || c == '\n' || c == '\r' || c == '\U{000B}' || c == '\U{000C}'
  }

  /** `t` occurs in `s` starting at index `i`. */
  predicate At(s: string, i: nat, t: string) {
    i + |t| <= |s| && s[i..i + |t|] == t
  }

  lemma NotAtByFirst(s: string, i: nat, t: string)
    requires i < |s| && |t| > 0 && s[i] != t[0]
    ensures !At(s, i, t)
  {
  }

  /** `s.indexOf(t, from)`: the first occurrence of `t` at or after `from`, or -1. */
  function IndexOfFrom(s: string, t: string, from: nat): (r: int)
    ensures r == -1 || (from <= r && At(s, r, t))
    ensures r == -1 ==> forall i: nat :: from <= i ==> !At(s, i, t)
    ensures r != -1 ==> forall i: nat :: from <= i < r ==> !At(s, i, t)
    decreases |s| - from
  {
    if from + |t| > |s| then -1
    else if At(s, from, t) then from
    else IndexOfFrom(s, t, from + 1)
  }

  /** `s.includes(t)`. */
  predicate Contains(s: string, t: string) {
    IndexOfFrom(s, t, 0) >= 0
  }

  lemma ContainsIff(s: string, t: string)
    ensures Contains(s, t) <==> exists i: nat :: At(s, i, t)
  {
  }

  /** `s.lastIndexOf(t)` restricted to starts at or before `upto`. */
  function LastIndexUpTo(s: string, t: string, upto: nat): (r: int)
    ensures r == -1 || (0 <= r <= upto && At(s, r, t))
    ensures forall i: nat :: r < i <= upto ==> !At(s, i, t)
    decreases upto
  {
    if At(s, upto, t) then upto
    else if upto == 0 then -1
    else LastIndexUpTo(s, t, upto - 1)
  }

  /**
   * `s.replace(t, r)` with a string pattern: only the first occurrence of `t` is replaced
   * (the replacement strings this model uses hold no `$`, so none is special).
   */
  function ReplaceFirst(s: string, t: string, r: string): (out: string)
  {
    var k := IndexOfFrom(s, t, 0);
    if k < 0 then s else s[..k] + r + s[k + |t|..]
  }

  /** What `ReplaceFirst` promises: the first occurrence, and nothing else, is replaced. */
  lemma ReplaceFirstSpec(s: string, t: string, r: string, k: nat)
    requires At(s, k, t)
    requires forall i: nat :: i < k ==> !At(s, i, t)
    ensures ReplaceFirst(s, t, r) == s[..k] + r + s[k + |t|..]
  {
  }

  /** Where `t` occurs, replacing its first occurrence by `r` changes the length by `|r| - |t|`. */
  lemma ReplaceFirstLength(s: string, t: string, r: string, j: nat)
    requires At(s, j, t)
    ensures |ReplaceFirst(s, t, r)| == |s| - |t| + |r|
  {
    var k := IndexOfFrom(s, t, 0);
    assert k >= 0;
  }

  lemma ReplaceFirstAbsent(s: string, t: string, r: string)
    requires !Contains(s, t)
    ensures ReplaceFirst(s, t, r) == s
  {
  }

  /** Replacing a string by itself changes nothing. */
  lemma ReplaceFirstSame(s: string, t: string)
    ensures ReplaceFirst(s, t, t) == s
  {
    var k := IndexOfFrom(s, t, 0);
    if k >= 0 {
      assert s[k..k + |t|] == t;
      assert s[..k] + t + s[k + |t|..] == s;
    }
  }

  /** `s.endsWith(t)`. */
  predicate EndsWith(s: string, t: string) {
    |t| <= |s| && s[|s| - |t|..] == t
  }

  /** `s.substring(0, n)` for a non-negative `n`. */
  function Take(s: string, n: nat): (r: string)
    ensures |r| == if n < |s| then n else |s|
    ensures r <= s
  {
    if n < |s| then s[..n] else s
  }

  /** The index of the first `c` in `s`, or -1. */
  function IndexOfChar(s: string, c: char): (k: int)
    ensures k == -1 ==> c !in s
    ensures k != -1 ==> 0 <= k < |s| && s[k] == c && c !in s[..k]
  {
    if |s| == 0 then -1
    else if s[0] == c then 0
    else
      var k := IndexOfChar(s[1..], c);
      if k == -1 then -1 else k + 1
  }

  /** `s.split(sep)` for a one-character separator. */
  function Split(s: string, sep: char): (parts: seq<string>)
    ensures |parts| >= 1
    ensures forall p <- parts :: sep !in p
    decreases |s|
  {
    var k := IndexOfChar(s, sep);
    if k == -1 then [s] else [s[..k]] + Split(s[k + 1..], sep)
  }

  /** `parts.join(sep)`. */
  function Join(parts: seq<string>, sep: string): string
  {
    if |parts| == 0 then ""
    else if |parts| == 1 then parts[0]
    else parts[0] + sep + Join(parts[1..], sep)
  }

  /** Splitting and joining again gives the text back. */
  lemma {:induction false} JoinSplit(s: string, sep: char)
    ensures Join(Split(s, sep), [sep]) == s
    decreases |s|
  {
    var k := IndexOfChar(s, sep);
    if k != -1 {
      var rest := Split(s[k + 1..], sep);
      JoinSplit(s[k + 1..], sep);
      assert Split(s, sep) == [s[..k]] + rest;
      assert Join(Split(s, sep), [sep]) == s[..k] + [sep] + Join(rest, [sep]);
      assert s == s[..k] + [sep] + s[k + 1..];
    }
  }

  /** The first separator of `a + [sep] + b`, when `a` has none, is the one after `a`. */
  lemma FirstSeparator(a: string, sep: char, b: string)
    requires sep !in a
    ensures IndexOfChar(a + [sep] + b, sep) == |a|
  {
    var s := a + [sep] + b;
    assert s[|a|] == sep;
  }

  /** Joining separator-free pieces and splitting again gives the pieces back. */
  lemma {:induction false} SplitJoin(parts: seq<string>, sep: char)
    requires |parts| >= 1
    requires forall p <- parts :: sep !in p
    ensures Split(Join(parts, [sep]), sep) == parts
  {
    assert parts[0] in parts;
    if |parts| > 1 {
      var tail := Join(parts[1..], [sep]);
      var s := parts[0] + [sep] + tail;
      assert forall p <- parts[1..] :: p in parts;
      SplitJoin(parts[1..], sep);
      FirstSeparator(parts[0], sep, tail);
      assert s[..|parts[0]|] == parts[0];
      assert s[|parts[0]| + 1..] == tail;
      assert Split(s, sep) == [parts[0]] + parts[1..];
    } else {
      assert parts == [parts[0]];
    }
  }

  /** `s.trimStart()` over ASCII white space. */
  function TrimStart(s: string): (r: string)
    ensures |r| <= |s| && r == s[|s| - |r|..]
    ensures forall i :: 0 <= i < |s| - |r| ==> IsTrimSpace(s[i])
    ensures |r| > 0 ==> !IsTrimSpace(r[0])
  {
    if |s| > 0 && IsTrimSpace(s[0]) then TrimStart(s[1..]) else s
  }

  /** `s.trimEnd()` over ASCII white space. */
  function TrimEnd(s: string): (r: string)
    ensures |r| <= |s| && r == s[..|r|]
    ensures forall i :: |r| <= i < |s| ==> IsTrimSpace(s[i])
    ensures |r| > 0 ==> !IsTrimSpace(r[|r| - 1])
  {
    if |s| > 0 && IsTrimSpace(s[|s| - 1]) then TrimEnd(s[..|s| - 1]) else s
  }

  /** `s.trim()` over ASCII white space. */
  function Trim(s: string): string {
    TrimEnd(TrimStart(s))
  }

  /** Trimming drops white space from both ends only, and what is left starts and ends with other characters. */
  lemma TrimSpec(s: string)
    ensures exists a: nat, b: nat ::
              && a <= b <= |s| && Trim(s) == s[a..b]
              && (forall i :: 0 <= i < a ==> IsTrimSpace(s[i]))
              && (forall i :: b <= i < |s| ==> IsTrimSpace(s[i]))
    ensures |Trim(s)| > 0 ==> !IsTrimSpace(Trim(s)[0]) && !IsTrimSpace(Trim(s)[|Trim(s)| - 1])
  {
    var a, b := TrimBounds(s);
    TrimEnds(s);
  }

  lemma TrimBounds(s: string) returns (a: nat, b: nat)
    ensures a <= b <= |s| && Trim(s) == s[a..b]
    ensures forall i :: 0 <= i < a ==> IsTrimSpace(s[i])
    ensures forall i :: b <= i < |s| ==> IsTrimSpace(s[i])
  {
    var t := TrimStart(s);
    var r := TrimEnd(t);
    a := |s| - |t|;
    b := a + |r|;
    assert s[a..b] == r;
    TrimTail(s, t, r);
  }

  lemma TrimEnds(s: string)
    ensures |Trim(s)| > 0 ==> !IsTrimSpace(Trim(s)[0]) && !IsTrimSpace(Trim(s)[|Trim(s)| - 1])
  {
    var t := TrimStart(s);
    var r := TrimEnd(t);
    if |r| > 0 {
      assert r[0] == t[0];
    }
  }

  lemma TrimTail(s: string, t: string, r: string)
    requires |t| <= |s| && t == s[|s| - |t|..]
    requires |r| <= |t| && r == t[..|r|]
    requires forall i :: |r| <= i < |t| ==> IsTrimSpace(t[i])
    ensures forall i :: |s| - |t| + |r| <= i < |s| ==> IsTrimSpace(s[i])
  {
    forall i | |s| - |t| + |r| <= i < |s| ensures IsTrimSpace(s[i]) {
      assert s[i] == t[i - (|s| - |t|)];
    }
  }

  /** Trimming twice is trimming once. */
  lemma TrimIdempotent(s: string)
    ensures Trim(Trim(s)) == Trim(s)
  {
    var r := Trim(s);
    if |r| > 0 {
      TrimSpec(s);
      assert TrimStart(r) == r;
      assert TrimEnd(r) == r;
    }
  }

  predicate IsDigit(c: char) {
    '0' <= c <= '9'
  }

  function DigitChar(d: nat): (c: char)
    requires d < 10
    ensures IsDigit(c) && c as int - '0' as int == d
  {
    (48 + d) as char
  }

  /** The number a string of decimal digits denotes. */
  function DecimalValue(r: string): nat
    requires forall c <- r :: IsDigit(c)
  {
    if |r| == 0 then 0
    else
      assert IsDigit(r[|r| - 1]);
      DecimalValue(r[..|r| - 1]) * 10 + (r[|r| - 1] as int - '0' as int)
  }

  /** How a template literal renders a non-negative integer: canonical decimal digits. */
  function NatToString(n: nat): (r: string)
    ensures |r| >= 1 && forall c <- r :: IsDigit(c)
    ensures n >= 10 ==> r[0] != '0'
    decreases n
  {
    if n < 10 then [DigitChar(n)] else NatToString(n / 10) + [DigitChar(n % 10)]
  }

  /** Reading the rendered digits back gives the number. */
  lemma {:induction false} NatToStringRoundTrip(n: nat)
    ensures DecimalValue(NatToString(n)) == n
    decreases n
  {
    if n >= 10 {
      var r := NatToString(n);
      NatToStringRoundTrip(n / 10);
      assert r[..|r| - 1] == NatToString(n / 10);
    }
  }

  /** Rendering is injective: different numbers never print the same. */
  lemma NatToStringInjective(m: nat, n: nat)
    requires NatToString(m) == NatToString(n)
    ensures m == n
  {
    NatToStringRoundTrip(m);
    NatToStringRoundTrip(n);
  }

  /** How a template literal renders an integer, with a leading `-` when negative. */
  function IntToString(i: int): (r: string)
    ensures i >= 0 ==> r == NatToString(i)
    ensures i < 0 ==> r == "-" + NatToString(-i)
  {
    if i < 0 then "-" + NatToString(-i) else NatToString(i)
  }

  /** The first quote character at or after `from`, or -1. */
  function FirstQuoteFrom(s: string, from: nat): (r: int)
    ensures r == -1 || (from <= r < |s| && IsQuote(s[r]))
    ensures forall k | from <= k < |s| && (r == -1 || k < r) :: !IsQuote(s[k])
    decreases |s| - from
  {
    if from >= |s| then -1
    else if IsQuote(s[from]) then from
    else FirstQuoteFrom(s, from + 1)
  }

  /** `a` can be obtained from `b` by deleting elements. */
  predicate IsSubsequence<T(==)>(a: seq<T>, b: seq<T>)
    decreases |b|
  {
    if |a| == 0 then true
    else if |b| == 0 then false
    else if a[|a| - 1] == b[|b| - 1] then IsSubsequence(a[..|a| - 1], b[..|b| - 1])
    else IsSubsequence(a, b[..|b| - 1])
  }

  lemma {:induction false} SubsequenceDropLast<T>(a: seq<T>, b: seq<T>)
    requires |a| > 0 && IsSubsequence(a, b)
    ensures IsSubsequence(a[..|a| - 1], b)
    decreases |b|
  {
    var a', b' := a[..|a| - 1], b[..|b| - 1];
    if |a'| > 0 {
      if a[|a| - 1] == b[|b| - 1] {
        SubsequenceDropLast(a', b');
      } else {
        SubsequenceDropLast(a, b');
        if a'[|a'| - 1] == b[|b| - 1] {
          SubsequenceDropLast(a', b');
        }
      }
    }
  }

  lemma SubsequenceSnoc<T>(a: seq<T>, b: seq<T>, x: T)
    requires IsSubsequence(a, b)
    ensures IsSubsequence(a, b + [x])
  {
    assert (b + [x])[..|b|] == b;
    if |a| > 0 && a[|a| - 1] == x {
      SubsequenceDropLast(a, b);
    }
  }
}
