/**
  Facts about `String.prototype.replace` with a string pattern: what each
  `$` pattern of the replacement inserts, how a replacement can be escaped so
  that it is inserted literally, and where the first occurrence lies when the
  text starts with a part the pattern cannot start in.
 */
module JsReplace {
  import opened Js

  /** `$$` inserts one `$`. */
  lemma DollarPattern(rest: string, matched: string, before: string, after: string)
    ensures ExpandReplacement("$$" + rest, matched, before, after) == "$" + ExpandReplacement(rest, matched, before, after)
  {
    var t := "$$" + rest;
    assert t[0] == '$' && t[1] == '$' && t[2..] == rest;
  }

  /** `$&` inserts the matched text. */
  lemma MatchPattern(rest: string, matched: string, before: string, after: string)
    ensures ExpandReplacement("$&" + rest, matched, before, after) == matched + ExpandReplacement(rest, matched, before, after)
  {
    var t := "$&" + rest;
    assert t[0] == '$' && t[1] == '&' && t[2..] == rest;
  }

  /** `` $` `` inserts the text before the match. */
  lemma BeforePattern(rest: string, matched: string, before: string, after: string)
    ensures ExpandReplacement("$`" + rest, matched, before, after) == before + ExpandReplacement(rest, matched, before, after)
  {
    var t := "$`" + rest;
    assert t[0] == '$' && t[1] == '`' && t[2..] == rest;
  }

  /** `$'` inserts the text after the match. */
  lemma AfterPattern(rest: string, matched: string, before: string, after: string)
    ensures ExpandReplacement("$'" + rest, matched, before, after) == after + ExpandReplacement(rest, matched, before, after)
  {
    var t := "$'" + rest;
    assert t[0] == '$' && t[1] == '\'' && t[2..] == rest;
  }

  /** With no capture groups, `$1` stays as it is. */
  lemma GroupPatternIsLiteral(rest: string, matched: string, before: string, after: string)
    ensures ExpandReplacement("$1" + rest, matched, before, after) == "$1" + ExpandReplacement(rest, matched, before, after)
  {
    var t := "$1" + rest;
    assert t[0] == '$' && t[1] == '1' && t[1..] == "1" + rest;
    var u := "1" + rest;
    assert u[0] == '1' && u[1..] == rest;
  }

  /** A text without `$` copies through, and expansion continues after it. */
  lemma {:induction false} ExpandLiteralPrefix(lit: string, rest: string, matched: string, before: string, after: string)
    requires '$' !in lit
    ensures ExpandReplacement(lit + rest, matched, before, after) == lit + ExpandReplacement(rest, matched, before, after)
    decreases |lit|
  {
    if |lit| > 0 {
      var t := lit + rest;
      assert t[0] == lit[0] && t[1..] == lit[1..] + rest;
      ExpandLiteralPrefix(lit[1..], rest, matched, before, after);
      assert lit == [lit[0]] + lit[1..];
    } else {
      assert lit + rest == rest;
    }
  }

  /** Every `$` doubled: the replacement that inserts `v` literally. */
  function Escape(v: string): (r: string)
    ensures |r| >= |v|
    ensures '$' !in v ==> r == v
    decreases |v|
  {
    if |v| == 0 then ""
    else if v[0] == '$' then "$$" + Escape(v[1..])
    else [v[0]] + Escape(v[1..])
  }

  /** Expanding an escaped text gives the text back. */
  lemma {:induction false} ExpandEscaped(v: string, matched: string, before: string, after: string)
    ensures ExpandReplacement(Escape(v), matched, before, after) == v
    decreases |v|
  {
    if |v| > 0 {
      ExpandEscaped(v[1..], matched, before, after);
      if v[0] == '$' {
        DollarPattern(Escape(v[1..]), matched, before, after);
      } else {
        var t := [v[0]] + Escape(v[1..]);
        assert t[0] == v[0] && t[1..] == Escape(v[1..]);
      }
      assert v == [v[0]] + v[1..];
    }
  }

  /** The first occurrence is at `k` when there is one there and none before. */
  lemma IndexOfIs(s: string, pat: string, k: int)
    requires OccursAt(s, pat, k)
    requires forall i :: 0 <= i < k ==> !OccursAt(s, pat, i)
    ensures IndexOf(s, pat) == k
  {
  }

  /** Shifting by a prefix keeps occurrences. */
  lemma ShiftOccurs(a: string, b: string, pat: string, j: int)
    requires 0 <= j
    ensures OccursAt(a + b, pat, |a| + j) <==> OccursAt(b, pat, j)
  {
    if j + |pat| <= |b| {
      assert (a + b)[|a| + j..|a| + j + |pat|] == b[j..j + |pat|];
    }
  }

  /** When `pat` does not start inside `a`, its first occurrence in `a + b`
      is its first occurrence in `b`, shifted. */
  lemma IndexOfAfterPrefix(a: string, b: string, pat: string)
    requires forall i :: 0 <= i < |a| ==> !OccursAt(a + b, pat, i)
    ensures IndexOf(a + b, pat) == if IndexOf(b, pat) < 0 then -1 else |a| + IndexOf(b, pat)
  {
    var s := a + b;
    var j := IndexOf(b, pat);
    if j >= 0 {
      ShiftOccurs(a, b, pat, j);
      forall i | 0 <= i < |a| + j ensures !OccursAt(s, pat, i) {
        if i >= |a| { ShiftOccurs(a, b, pat, i - |a|); }
      }
      IndexOfIs(s, pat, |a| + j);
    } else {
      forall i ensures !OccursAt(s, pat, i) {
        if i >= |a| { ShiftOccurs(a, b, pat, i - |a|); }
      }
    }
  }

  /** A `$`-free replacement at a known first occurrence. */
  lemma ReplaceFirstAtIndex(s: string, pat: string, rep: string, k: int)
    requires '$' !in rep && k >= 0 && IndexOf(s, pat) == k
    ensures ReplaceFirst(s, pat, rep) == s[..k] + rep + s[k + |pat|..]
  {
  }

  /** Replacing the match by `$&`, the match itself, changes nothing. */
  lemma ReplaceByMatchIsIdentity(s: string, pat: string)
    ensures ReplaceFirst(s, pat, "$&") == s
  {
    var i := IndexOf(s, pat);
    if i >= 0 {
      MatchPattern("", pat, s[..i], s[i + |pat|..]);
      assert "$&" + "" == "$&";
      assert s[i..i + |pat|] == pat;
      assert s == s[..i] + s[i..i + |pat|] + s[i + |pat|..];
    }
  }

  /** A text that starts with the pattern has it replaced there. */
  lemma ReplaceAtStart(pat: string, rest: string, rep: string)
    requires '$' !in rep
    ensures ReplaceFirst(pat + rest, pat, rep) == rep + rest
  {
    var s := pat + rest;
    assert s[0..|pat|] == pat;
    IndexOfIs(s, pat, 0);
    ReplaceFirstAtIndex(s, pat, rep, 0);
    assert s[..0] == [] && s[|pat|..] == rest;
  }

  /** Cutting `a + b` inside `b`. */
  lemma ConcatSlices(a: string, b: string, j: int, m: int)
    requires 0 <= j <= m <= |b|
    ensures (a + b)[..|a| + j] == a + b[..j]
    ensures (a + b)[|a| + m..] == b[m..]
  {
  }

  lemma ConcatRegroup(a: string, pre: string, mid: string, post: string)
    ensures (a + pre) + mid + post == a + (pre + mid + post)
  {
  }

  lemma ReplaceInSuffix(a: string, b: string, pat: string, rep: string, j: int)
    requires '$' !in rep && j >= 0
    requires IndexOf(b, pat) == j && IndexOf(a + b, pat) == |a| + j
    ensures ReplaceFirst(a + b, pat, rep) == a + ReplaceFirst(b, pat, rep)
  {
    ReplaceFirstAtIndex(b, pat, rep, j);
    ReplaceFirstAtIndex(a + b, pat, rep, |a| + j);
    ConcatSlices(a, b, j, j + |pat|);
    ConcatRegroup(a, b[..j], rep, b[j + |pat|..]);
  }

  /** When `pat` does not start inside `a`, replacing in `a + b` replaces in `b`. */
  lemma ReplaceFirstAfterPrefix(a: string, b: string, pat: string, rep: string)
    requires '$' !in rep
    requires forall i :: 0 <= i < |a| ==> !OccursAt(a + b, pat, i)
    ensures ReplaceFirst(a + b, pat, rep) == a + ReplaceFirst(b, pat, rep)
  {
    IndexOfAfterPrefix(a, b, pat);
    var j := IndexOf(b, pat);
    if j >= 0 {
      ReplaceInSuffix(a, b, pat, rep, j);
    }
  }
}
