/**
  The slice of JavaScript semantics the builder's stores and renderer rely on:
  dynamic values, truthiness, `String(v)`, the `||` operator, and the string
  built-ins `indexOf`/`includes`/`split`/`replace`/`toLowerCase`.
  Numbers are modelled as integers.
 */
module Js {

  datatype Option<T> = None | Some(value: T)

  /** A JSON-compatible JavaScript value. */
  datatype Value =
    | Undefined
    | Null
    | Bool(b: bool)
    | Num(n: int)
    | Str(s: string)
    | Arr(items: seq<Value>)
    | Obj(fields: map<string, Value>)

  /** A string-keyed property bag (component props, a data row). */
  type Record = map<string, Value>

  /** Reading a property: an absent key reads as `undefined`. */
  function Get(m: Record, key: string): Value {
    if key in m then m[key] else Undefined
  }

  /** JavaScript truthiness: `undefined`, `null`, `false`, `0` and `""` are falsy. */
  predicate Truthy(v: Value) {
    match v
    case Undefined => false
    case Null => false
    case Bool(b) => b
    case Num(n) => n != 0
    case Str(s) => s != ""
    case Arr(_) => true
    case Obj(_) => true
  }

  /** `a || b` */
  function Or(a: Value, b: Value): Value {
    if Truthy(a) then a else b
  }

  // ---------------------------------------------------------------------------
  // Arrays

  /** `xs` keeps some elements of `ys` in their original order. */
  predicate Subsequence<T(==)>(xs: seq<T>, ys: seq<T>)
    decreases |ys|
  {
    if |xs| == 0 then true
    else if |ys| == 0 then false
    else if xs[0] == ys[0] then Subsequence(xs[1..], ys[1..])
    else Subsequence(xs, ys[1..])
  }

  /** A prefix of a subsequence is a subsequence. */
  lemma {:induction false} SubsequencePrefix<T>(xs: seq<T>, ys: seq<T>, k: nat)
    requires Subsequence(xs, ys) && k <= |xs|
    ensures Subsequence(xs[..k], ys)
    decreases |ys|
  {
    if k > 0 && |ys| > 0 {
      if xs[0] == ys[0] {
        SubsequencePrefix(xs[1..], ys[1..], k - 1);
        assert xs[..k][1..] == xs[1..][..k - 1];
      } else {
        SubsequencePrefix(xs, ys[1..], k);
      }
    }
  }

  /** A subsequence is no longer than the sequence it is taken from. */
  lemma {:induction false} SubsequenceLength<T>(xs: seq<T>, ys: seq<T>)
    requires Subsequence(xs, ys)
    ensures |xs| <= |ys|
    decreases |ys|
  {
    if |xs| > 0 {
      if xs[0] == ys[0] {
        SubsequenceLength(xs[1..], ys[1..]);
      } else {
        SubsequenceLength(xs, ys[1..]);
      }
    }
  }

  /** `xs.slice(0, end)` */
  function Slice<T>(xs: seq<T>, end: int): (r: seq<T>)
    ensures end >= 0 ==> |r| == if end < |xs| then end else |xs|
    ensures end < 0 ==> |r| == if |xs| + end > 0 then |xs| + end else 0
    ensures r == xs[..|r|]
  {
    var stop := if end < 0 then (if |xs| + end > 0 then |xs| + end else 0)
                else (if end < |xs| then end else |xs|);
    xs[..stop]
  }

  /** A slice of a subsequence is a subsequence, no longer than the whole. */
  lemma SliceOfSubsequence<T>(xs: seq<T>, ys: seq<T>, end: int)
    requires Subsequence(xs, ys)
    ensures Subsequence(Slice(xs, end), ys) && |Slice(xs, end)| <= |ys|
  {
    var r := Slice(xs, end);
    SubsequencePrefix(xs, ys, |r|);
    SubsequenceLength(r, ys);
  }

  // ---------------------------------------------------------------------------
  // Decimal conversion

  predicate IsDigit(c: char) {
    '0' <= c <= '9'
  }

  predicate AllDigits(s: string) {
    forall i :: 0 <= i < |s| ==> IsDigit(s[i])
  }

  function DigitChar(d: nat): (c: char)
    requires d < 10
    ensures IsDigit(c)
  {
    (48 + d) as char
  }

  function DigitValue(c: char): nat
    requires IsDigit(c)
  {
    (c as int) - 48
  }

  /** The decimal numeral of `n`, as `String(n)` writes it. */
  function NatToString(n: nat): (r: string)
    ensures |r| >= 1 && AllDigits(r)
    ensures r[0] == '0' ==> n == 0
    decreases n
  {
    if n < 10 then [DigitChar(n)] else NatToString(n / 10) + [DigitChar(n % 10)]
  }

  /** The value of a numeral, read most significant digit first. */
  function DecimalValue(s: string): nat
    requires AllDigits(s)
    decreases |s|
  {
    if |s| == 0 then 0 else DecimalValue(s[..|s| - 1]) * 10 + DigitValue(s[|s| - 1])
  }

  /** Reading back a written numeral gives the number. */
  lemma {:induction false} DecimalRoundTrip(n: nat)
    ensures DecimalValue(NatToString(n)) == n
    decreases n
  {
    if n >= 10 {
      var s := NatToString(n);
      DecimalRoundTrip(n / 10);
      assert s[..|s| - 1] == NatToString(n / 10);
      assert DigitValue(s[|s| - 1]) == n % 10;
    }
  }

  /** Distinct numbers print differently. */
  lemma NatToStringInjective(a: nat, b: nat)
    requires a != b
    ensures NatToString(a) != NatToString(b)
  {
    DecimalRoundTrip(a);
    DecimalRoundTrip(b);
  }

  function IntToString(i: int): string {
    if i < 0 then "-" + NatToString(-i) else NatToString(i)
  }

  /** `String(v)` */
  function ToString(v: Value): string
    decreases v, 1
  {
    match v
    case Undefined => "undefined"
    case Null => "null"
    case Bool(b) => if b then "true" else "false"
    case Num(n) => IntToString(n)
    case Str(s) => s
    case Arr(items) => JoinItems(items)
    case Obj(_) => "[object Object]"
  }

  /** `Array.prototype.join(",")`: `undefined` and `null` elements print as "". */
  function JoinItems(items: seq<Value>): string
    decreases items, 0
  {
    if |items| == 0 then ""
    else
      var first := if items[0].Undefined? || items[0].Null? then "" else ToString(items[0]);
      if |items| == 1 then first else first + "," + JoinItems(items[1..])
  }

  // ---------------------------------------------------------------------------
  // Searching

  /** `pat` occurs in `s` starting at index `i`. */
  predicate OccursAt(s: string, pat: string, i: int) {
    0 <= i && i + |pat| <= |s| && s[i..i + |pat|] == pat
  }

  /** `s.indexOf(pat, from)`: the first occurrence at or after `from`, or -1. */
  function IndexFrom(s: string, pat: string, from: nat): (r: int)
    ensures r == -1 || (from <= r && OccursAt(s, pat, r))
    ensures r == -1 ==> forall i :: from <= i ==> !OccursAt(s, pat, i)
    ensures r != -1 ==> forall i :: from <= i < r ==> !OccursAt(s, pat, i)
    decreases |s| - from
  {
    if from + |pat| > |s| then -1
    else if s[from..from + |pat|] == pat then from
    else IndexFrom(s, pat, from + 1)
  }

  function IndexOf(s: string, pat: string): (r: int)
    ensures r == -1 || OccursAt(s, pat, r)
    ensures r == -1 <==> forall i :: !OccursAt(s, pat, i)
    ensures r != -1 ==> forall i :: 0 <= i < r ==> !OccursAt(s, pat, i)
  {
    IndexFrom(s, pat, 0)
  }

  /** `s.includes(pat)` */
  predicate Includes(s: string, pat: string) {
    IndexOf(s, pat) >= 0
  }

  /** A pattern whose first character the text lacks is not included. */
  lemma FirstCharAbsent(s: string, pat: string)
    requires |pat| > 0 && pat[0] !in s
    ensures !Includes(s, pat)
  {
    forall i ensures !OccursAt(s, pat, i) {
      if 0 <= i && i + |pat| <= |s| {
        assert s[i..i + |pat|][0] == s[i];
      }
    }
  }

  /** `s.split(pat)[0]`: the text before the first `pat`, or all of `s`. */
  function Before(s: string, pat: string): (r: string)
    ensures |r| <= |s| && r == s[..|r|]
    ensures !Includes(s, pat) ==> r == s
    ensures Includes(s, pat) ==> r == s[..IndexOf(s, pat)]
    ensures |pat| > 0 ==> !Includes(r, pat)
  {
    var i := IndexOf(s, pat);
    if i < 0 then s
    else
      assert |pat| > 0 ==> forall j :: !OccursAt(s[..i], pat, j) by {
        if |pat| > 0 {
          forall j | OccursAt(s[..i], pat, j) ensures false {
            assert s[..i][j..j + |pat|] == s[j..j + |pat|];
            assert OccursAt(s, pat, j) && j < i;
          }
        }
      }
      s[..i]
  }

  /** The text after the first `pat`; only meaningful when `pat` occurs. */
  function After(s: string, pat: string): (r: string)
    ensures |r| <= |s| && r == s[|s| - |r|..]
    ensures Includes(s, pat) ==> r == s[IndexOf(s, pat) + |pat|..]
    ensures Includes(s, pat) ==> OccursAt(s, pat + r, IndexOf(s, pat))
    ensures !Includes(s, pat) ==> r == s
  {
    var i := IndexOf(s, pat);
    if i < 0 then s
    else
      assert s[i..i + |pat + s[i + |pat|..]|] == pat + s[i + |pat|..];
      s[i + |pat|..]
  }

  /** A prefix of a text without `pat` has no `pat` either. */
  lemma PrefixKeepsAbsence(s: string, pat: string, k: nat)
    requires !Includes(s, pat) && k <= |s|
    ensures !Includes(s[..k], pat)
  {
    assert IndexOf(s, pat) == -1;
    forall j | 0 <= j && j + |pat| <= k ensures !OccursAt(s[..k], pat, j) {
      assert !OccursAt(s, pat, j);
      assert s[..k][j..j + |pat|] == s[j..j + |pat|];
    }
  }

  /** An occurrence in a slice of `s` is an occurrence in `s`, shifted. */
  lemma OccursInSlice(s: string, k: int, n: int, pat: string, j: int)
    requires 0 <= k <= n <= |s| && OccursAt(s[k..n], pat, j)
    ensures OccursAt(s, pat, k + j)
  {
    forall t | 0 <= t < |pat| ensures s[k + j..k + j + |pat|][t] == pat[t] {
      assert pat[t] == s[k..n][j..j + |pat|][t];
    }
  }

  /** Cutting the tail of an occurrence leaves an occurrence. */
  lemma OccurrencePrefix(s: string, p: string, t: string, i: int, k: nat)
    requires OccursAt(s, p + t, i) && k <= |t|
    ensures OccursAt(s, p + t[..k], i)
  {
    assert s[i..i + |p + t[..k]|] == (p + t)[..|p| + k];
    assert (p + t)[..|p| + k] == p + t[..k];
  }

  /** `s.split(sep)[1]` when `sep` occurs in `s`: the text between the first
      and the second occurrence of `sep` (or the end). */
  function SecondSegment(s: string, sep: string): string {
    Before(After(s, sep), sep)
  }

  // ---------------------------------------------------------------------------
  // String.prototype.replace with a string pattern

  /** The replacement string after its `$` patterns are expanded (no capture
      groups exist for a string pattern, so `$1` and `$<` stay literal). */
  function ExpandReplacement(rep: string, matched: string, before: string, after: string): (r: string)
    ensures '$' !in rep ==> r == rep
    decreases |rep|
  {
    if |rep| == 0 then ""
    else if rep[0] == '$' && |rep| >= 2 && rep[1] in "$&`'" then
      var piece := match rep[1]
        case '$' => "$"
        case '&' => matched
        case '`' => before
        case _ => after;
      piece + ExpandReplacement(rep[2..], matched, before, after)
    else
      [rep[0]] + ExpandReplacement(rep[1..], matched, before, after)
  }

  /** `s.replace(pat, rep)`: only the first occurrence of `pat` is replaced. */
  function ReplaceFirst(s: string, pat: string, rep: string): (r: string)
    ensures !Includes(s, pat) ==> r == s
    ensures Includes(s, pat) && '$' !in rep ==>
              r == s[..IndexOf(s, pat)] + rep + s[IndexOf(s, pat) + |pat|..]
  {
    var i := IndexOf(s, pat);
    if i < 0 then s
    else s[..i] + ExpandReplacement(rep, pat, s[..i], s[i + |pat|..]) + s[i + |pat|..]
  }

  // ---------------------------------------------------------------------------
  // Length

  /** A character outside the Basic Multilingual Plane is a surrogate pair in
      UTF-16, so it counts as two code units. */
  function CodeUnits(c: char): nat {
    if c as int > 0xFFFF then 2 else 1
  }

  /** `s.length`: the number of UTF-16 code units, not of characters. */
  function Utf16Length(s: string): (n: nat)
    ensures |s| <= n <= 2 * |s|
    ensures n == |s| <==> forall i :: 0 <= i < |s| ==> s[i] as int <= 0xFFFF
    decreases |s|
  {
    if |s| == 0 then 0
    else
      var n := CodeUnits(s[0]) + Utf16Length(s[1..]);
      assert forall i :: 1 <= i < |s| ==> s[i] == s[1..][i - 1];
      n
  }

  /** The length of a concatenation is the sum of the lengths. */
  lemma {:induction false} Utf16LengthConcat(a: string, b: string)
    ensures Utf16Length(a + b) == Utf16Length(a) + Utf16Length(b)
    decreases |a|
  {
    if |a| > 0 {
      assert (a + b)[1..] == a[1..] + b;
      Utf16LengthConcat(a[1..], b);
    } else {
      assert a + b == b;
    }
  }

  // ---------------------------------------------------------------------------
  // Case

  /** ASCII `toLowerCase` (other characters are left as they are). */
  function LowerChar(c: char): char {
    if 'A' <= c <= 'Z' then (c as int + 32) as char else c
  }

  function Lower(s: string): (r: string)
    ensures |r| == |s|
    ensures forall i :: 0 <= i < |s| ==> r[i] == LowerChar(s[i])
  {
    seq(|s|, i requires 0 <= i < |s| => LowerChar(s[i]))
  }
}
