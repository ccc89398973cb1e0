/**
 * The path-parameter rewrite of go-openapi-spec-to-ingress/main.go:87-98:
 * the regular expression `\{.+\}` as Go's RE2 engine matches it
 * (leftmost-first, greedy `.+`, `.` not matching a newline), the fixed
 * three-entry substitution table, and `ReplaceAllStringFunc` with a
 * closure that indexes that table.
 */
module PathParam {
  import opened Wrappers

  // ---------------------------------------------------------------------
  // The pattern `\{.+\}`
  // ---------------------------------------------------------------------

  /** `\{.+\}` matches s[i..j]: a `{`, one or more characters other than a
      newline, then a `}`. */
  predicate IsMatch(s: string, i: int, j: int)
  {
    0 <= i && i + 3 <= j <= |s| && s[i] == '{' && s[j - 1] == '}'
    && forall k :: i < k < j - 1 ==> s[k] != '\n'
  }

  /** s[i..j] is the match RE2 reports: no match starts further left, and
      the greedy `.+` makes it the longest match that starts at i. */
  ghost predicate IsGreedyMatch(s: string, i: int, j: int)
  {
    && IsMatch(s, i, j)
    && (forall i', j' :: i' < i ==> !IsMatch(s, i', j'))
    && (forall j' :: j < j' ==> !IsMatch(s, i, j'))
  }

  /** The pattern matches nowhere in s. */
  ghost predicate NoMatch(s: string)
  {
    forall i, j :: !IsMatch(s, i, j)
  }

  /** s holds no newline, as every OpenAPI path key and server URL does. */
  predicate NoNewline(s: string)
  {
    forall k :: 0 <= k < |s| ==> s[k] != '\n'
  }

  /** The index of the first newline at or after `from`, or |s| if none. */
  function LineEnd(s: string, from: nat): (e: nat)
    requires from <= |s|
    ensures from <= e <= |s|
    ensures e < |s| ==> s[e] == '\n'
    ensures forall k :: from <= k < e ==> s[k] != '\n'
    decreases |s| - from
  {
    if from == |s| || s[from] == '\n' then from else LineEnd(s, from + 1)
  }

  /** The index of the last `}` in s[..n], if there is one. */
  function LastClose(s: string, n: nat): (r: Option<nat>)
    requires n <= |s|
    ensures r.Some? ==> r.value < n && s[r.value] == '}'
    ensures r.Some? ==> forall k :: r.value < k < n ==> s[k] != '}'
    ensures r.None? ==> forall k :: 0 <= k < n ==> s[k] != '}'
  {
    if n == 0 then None
    else if s[n - 1] == '}' then Some(n - 1)
    else LastClose(s, n - 1)
  }

  /** The end of the longest match that starts at i: the last `}` before
      the end of i's line, provided it leaves room for `.+`. */
  function MatchEnd(s: string, i: nat): (r: Option<nat>)
    requires i < |s|
    ensures r.Some? ==> IsMatch(s, i, r.value)
    ensures r.Some? ==> forall j' :: r.value < j' ==> !IsMatch(s, i, j')
    ensures r.None? ==> forall j :: !IsMatch(s, i, j)
  {
    if s[i] != '{' then None
    else
      var e := LineEnd(s, i + 1);
      match LastClose(s, e)
      case None => None
      case Some(c) => if i + 2 <= c then Some(c + 1) else None
  }

  /** The greedy match whose start is the leftmost one at or after `from`. */
  function GreedySpanFrom(s: string, from: nat): (r: Option<(nat, nat)>)
    requires from <= |s|
    ensures r.Some? ==> from <= r.value.0 && IsMatch(s, r.value.0, r.value.1)
    ensures r.Some? ==> forall j' :: r.value.1 < j' ==> !IsMatch(s, r.value.0, j')
    ensures r.Some? ==> forall i', j' :: from <= i' < r.value.0 ==> !IsMatch(s, i', j')
    ensures r.None? ==> forall i', j' :: from <= i' ==> !IsMatch(s, i', j')
    decreases |s| - from
  {
    if from == |s| then None
    else
      match MatchEnd(s, from)
      case Some(j) => Some((from, j))
      case None => GreedySpanFrom(s, from + 1)
  }

  /** The span [start, end) that `\{.+\}` matches first in s, if any. */
  function GreedySpan(s: string): (r: Option<(nat, nat)>)
    ensures r.Some? ==> IsGreedyMatch(s, r.value.0, r.value.1)
    ensures r.None? ==> NoMatch(s)
  {
    GreedySpanFrom(s, 0)
  }

  /** The greedy match is unique: leftmost-first with a greedy `.+`
      determines a single span. */
  lemma GreedyMatchUnique(s: string, i: int, j: int, i2: int, j2: int)
    requires IsGreedyMatch(s, i, j) && IsGreedyMatch(s, i2, j2)
    ensures i == i2 && j == j2
  {
  }

  /** GreedySpan reports exactly the span that RE2 matches, and nothing
      when the pattern matches nowhere. */
  lemma GreedySpanIsTheMatch(s: string, i: int, j: int)
    ensures GreedySpan(s) == Some((i, j)) <==> IsGreedyMatch(s, i, j)
    ensures GreedySpan(s).None? <==> NoMatch(s)
  {
    if IsGreedyMatch(s, i, j) {
      var r := GreedySpan(s).value;
      GreedyMatchUnique(s, i, j, r.0, r.1);
    }
  }

  /** On a single line, the match runs from the first `{` of the string to
      its last `}`, and exists when some `{` has a `}` two or more places
      after it. */
  ghost predicate FirstOpenLastClose(s: string, i: int, j: int)
  {
    && 0 <= i && i + 3 <= j <= |s|
    && s[i] == '{' && (forall k :: 0 <= k < i ==> s[k] != '{')
    && s[j - 1] == '}' && (forall k :: j <= k < |s| ==> s[k] != '}')
  }

  ghost predicate HasBracePair(s: string)
  {
    exists a, b :: 0 <= a && a + 2 <= b < |s| && s[a] == '{' && s[b] == '}'
  }

  lemma {:induction false} SingleLineSpan(s: string, i: int, j: int)
    requires NoNewline(s)
    ensures GreedySpan(s) == Some((i, j)) <==> FirstOpenLastClose(s, i, j)
    ensures GreedySpan(s).None? <==> !HasBracePair(s)
  {
    var g := GreedySpan(s);
    if g.Some? {
      var (gi, gj) := g.value;
      forall k | 0 <= k < gi ensures s[k] != '{' {
        assert !IsMatch(s, k, gj);
      }
      forall k | gj <= k < |s| ensures s[k] != '}' {
        assert !IsMatch(s, gi, k + 1);
      }
      assert FirstOpenLastClose(s, gi, gj);
      assert IsMatch(s, gi, gj);
    } else {
      if HasBracePair(s) {
        var a, b :| 0 <= a && a + 2 <= b < |s| && s[a] == '{' && s[b] == '}';
        assert IsMatch(s, a, b + 1);
      }
    }
    if FirstOpenLastClose(s, i, j) {
      assert IsMatch(s, i, j);
      assert g.Some?;
      var (gi, gj) := g.value;
      assert FirstOpenLastClose(s, gi, gj);
    }
  }

  // ---------------------------------------------------------------------
  // Finding the span with loops
  // ---------------------------------------------------------------------

  /** Scans s for the span of `\{.+\}`: the first `{` whose line has a
      `}` that leaves room for `.+` starts the match. */
  method FindGreedySpan(s: string) returns (span: Option<(nat, nat)>)
    ensures span == GreedySpan(s)
  {
    var i := 0;
    while i < |s|
      invariant 0 <= i <= |s|
      invariant GreedySpanFrom(s, i) == GreedySpan(s)
    {
      var e := FindMatchEnd(s, i);
      if e.Some? {
        return Some((i, e.value));
      }
      i := i + 1;
    }
    return None;
  }

  /** From the `{` at i, walks to the end of the line, remembering the last
      `}` that leaves room for `.+`. */
  method FindMatchEnd(s: string, i: nat) returns (e: Option<nat>)
    requires i < |s|
    ensures e == MatchEnd(s, i)
  {
    if s[i] != '{' {
      return None;
    }
    var k := i + 1;
    var last := -1;
    while k < |s| && s[k] != '\n'
      invariant i + 1 <= k <= |s|
      invariant LineEnd(s, k) == LineEnd(s, i + 1)
      invariant last >= 0 ==> i + 2 <= last && LastClose(s, k) == Some(last)
      invariant last < 0 ==> LastClose(s, k).None? || LastClose(s, k).value < i + 2
    {
      if s[k] == '}' && i + 2 <= k {
        last := k;
      }
      k := k + 1;
    }
    if last >= 0 {
      e := Some(last + 1);
    } else {
      e := None;
    }
  }

  // ---------------------------------------------------------------------
  // The substitution table and ReplaceAllStringFunc
  // ---------------------------------------------------------------------

  /** `pathParamMap`: the regular-expression fragment for each path
      parameter of the pet store API. */
  const ParamTable: map<string, string> := map[
    "{petId}" := "(\\d+)",
    "{orderId}" := "(\\d+)",
    "{username}" := "([A-Za-z0-9]+)"
  ]

  /** `pathParamMap[s]`: a missing key yields Go's zero value for string.
      Every table entry is non-empty, so the result is empty exactly when
      the token is missing, and no result can start or cut short a match. */
  function Lookup(token: string): (r: string)
    ensures r != "" <==> token in ParamTable
    ensures Inert(r)
  {
    if token in ParamTable then ParamTable[token] else ""
  }

  /** `ReplaceAllStringFunc` for `\{.+\}`: each match, taken left to right
      and never overlapping the previous one, is replaced by `f` of its
      text; the search resumes where the match ended. The pattern has no
      anchors or word-boundary tests, so searching s from position j finds
      what searching s[j..] finds. */
  function ReplaceAllFunc(s: string, f: string -> string): string
    decreases |s|
  {
    match GreedySpan(s)
    case None => s
    case Some((i, j)) => s[..i] + f(s[i..j]) + ReplaceAllFunc(s[j..], f)
  }

  /** The rewrite of one ingress path (main.go:96-98). */
  function Rewrite(path: string): string
  {
    ReplaceAllFunc(path, Lookup)
  }

  /** No text that can start or cut short a match. */
  predicate Inert(t: string)
  {
    forall k :: 0 <= k < |t| ==> t[k] != '{' && t[k] != '\n'
  }

  /** On a single line, the rewrite replaces at most one span: the greedy
      match ends at the last `}`, so nothing after it can match again. The
      text before and after the span is kept as it was. */
  lemma {:induction false} AtMostOneReplacement(s: string, f: string -> string)
    requires NoNewline(s)
    ensures GreedySpan(s).None? ==> ReplaceAllFunc(s, f) == s
    ensures GreedySpan(s).Some? ==>
      var (i, j) := GreedySpan(s).value;
      ReplaceAllFunc(s, f) == s[..i] + f(s[i..j]) + s[j..]
  {
    if GreedySpan(s).Some? {
      var (i, j) := GreedySpan(s).value;
      SingleLineSpan(s, i, j);
      var rest := s[j..];
      forall a, b ensures !IsMatch(rest, a, b) {
        if 0 <= a && a + 3 <= b <= |rest| {
          assert rest[b - 1] == s[j + b - 1];
        }
      }
      assert GreedySpan(rest).None?;
    }
  }

  /** A path in which no `{` has a `}` two or more places after it comes
      out of the rewrite unchanged. */
  lemma NoBracePairUnchanged(s: string, f: string -> string)
    requires !HasBracePair(s)
    ensures ReplaceAllFunc(s, f) == s
  {
    forall i, j ensures !IsMatch(s, i, j) {
      if 0 <= i && i + 3 <= j <= |s| {
        assert !(s[i] == '{' && s[j - 1] == '}');
      }
    }
    GreedySpanIsTheMatch(s, 0, 0);
    NoSpanReplace(s, f);
  }

  /** When every replacement is inert, the rewritten path holds no further
      match: every `{...}` span the pattern can see has been consumed. */
  lemma {:induction false} RewrittenHasNoMatch(s: string, f: string -> string)
    requires forall t :: Inert(f(t))
    ensures NoMatch(ReplaceAllFunc(s, f))
    decreases |s|
  {
    match GreedySpan(s)
    case None =>
    case Some((i, j)) =>
      var a := s[..i];
      var m := f(s[i..j]);
      var rest := ReplaceAllFunc(s[j..], f);
      RewrittenHasNoMatch(s[j..], f);
      var out := a + m + rest;
      assert out == a + (m + rest);
      assert s == a + s[i..];
      assert Inert(m);
      forall p, q ensures !IsMatch(out, p, q) {
        if p < 0 || q > |out| {
        } else if p >= |a| + |m| {
          MatchInSuffix(a + m, rest, p, q);
        } else if p >= |a| {
          assert out[p] == m[p - |a|];
        } else if s[p] != '{' {
          assert out[p] == s[p];
        } else {
          LeftOfSpanEndsLine(s, i, j, p);
          var k :| p < k < i && s[k] == '\n';
          assert out[k] == s[k];
          if q <= |a| {
            MatchInPrefix(a, m + rest, p, q);
            MatchInPrefix(a, s[i..], p, q);
          }
        }
      }
  }

  /** A match that starts in the second part of a concatenation is a match
      of that part. */
  lemma MatchInSuffix(x: string, y: string, p: int, q: int)
    ensures p >= |x| ==> (IsMatch(x + y, p, q) <==> IsMatch(y, p - |x|, q - |x|))
  {
    if p >= |x| && q - |x| <= |y| && p + 3 <= q {
      var z, d := x + y, |x|;
      forall k | p - d <= k < q - d ensures y[k] == z[k + d] {}
      assert (forall k :: p < k < q - 1 ==> z[k] != '\n')
        <==> (forall k :: p - d < k < q - d - 1 ==> y[k] != '\n') by {
        if forall k :: p < k < q - 1 ==> z[k] != '\n' {
          forall k | p - d < k < q - d - 1 ensures y[k] != '\n' { assert z[k + d] != '\n'; }
        }
        if forall k :: p - d < k < q - d - 1 ==> y[k] != '\n' {
          forall k | p < k < q - 1 ensures z[k] != '\n' { assert y[k - d] != '\n'; }
        }
      }
    }
  }

  /** A match that ends in the first part of a concatenation is a match of
      that part. */
  lemma MatchInPrefix(x: string, y: string, p: int, q: int)
    ensures q <= |x| ==> (IsMatch(x + y, p, q) <==> IsMatch(x, p, q))
  {
    if q <= |x| && 0 <= p && p + 3 <= q {
      forall k | p <= k < q ensures (x + y)[k] == x[k] {}
    }
  }

  /** A `{` left of the greedy match has a newline between it and the
      match: otherwise it would start a match further left. */
  lemma LeftOfSpanEndsLine(s: string, i: int, j: int, p: int)
    requires IsGreedyMatch(s, i, j) && 0 <= p < i && s[p] == '{'
    ensures exists k :: p < k < i && s[k] == '\n'
  {
    assert !IsMatch(s, p, j);
  }

  /** Rewriting an already rewritten path changes nothing. */
  lemma RewriteIdempotent(s: string)
    ensures Rewrite(Rewrite(s)) == Rewrite(s)
  {
    forall t ensures Inert(Lookup(t)) {}
    RewrittenHasNoMatch(s, Lookup);
    GreedySpanIsTheMatch(Rewrite(s), 0, 0);
  }

  /** s holds no `{`. */
  predicate NoOpenBrace(s: string)
  {
    forall k :: 0 <= k < |s| ==> s[k] != '{'
  }

  /** s holds no `}`. */
  predicate NoCloseBrace(s: string)
  {
    forall k :: 0 <= k < |s| ==> s[k] != '}'
  }

  /** A prefix without `{` cannot start a match: the matches of
      prefix + key are those of key, moved right by |prefix|. */
  lemma BraceFreePrefixShiftsMatches(prefix: string, key: string, p: int, q: int)
    requires NoOpenBrace(prefix)
    ensures IsMatch(prefix + key, p, q) <==>
      p >= |prefix| && IsMatch(key, p - |prefix|, q - |prefix|)
  {
    MatchInSuffix(prefix, key, p, q);
    if 0 <= p < |prefix| { assert (prefix + key)[p] == prefix[p]; }
  }

  /** So the greedy span of prefix + key is that of key, moved right. */
  lemma BraceFreePrefixShiftsSpan(prefix: string, key: string)
    requires NoOpenBrace(prefix)
    ensures GreedySpan(key).None? ==> GreedySpan(prefix + key).None?
    ensures GreedySpan(key).Some? ==>
      GreedySpan(prefix + key) == Some((GreedySpan(key).value.0 + |prefix|, GreedySpan(key).value.1 + |prefix|))
  {
    var s, d := prefix + key, |prefix|;
    forall p, q ensures IsMatch(s, p, q) <==> p >= d && IsMatch(key, p - d, q - d) {
      BraceFreePrefixShiftsMatches(prefix, key, p, q);
    }
    match GreedySpan(key)
    case None =>
      GreedySpanIsTheMatch(s, 0, 0);
    case Some((i, j)) =>
      assert IsMatch(s, i + d, j + d);
      assert IsGreedyMatch(s, i + d, j + d);
      GreedySpanIsTheMatch(s, i + d, j + d);
  }

  /** The rewrite leaves a prefix without `{` alone and rewrites the rest
      as if the prefix were not there. */
  lemma BraceFreePrefixUntouched(prefix: string, key: string, f: string -> string)
    requires NoOpenBrace(prefix)
    ensures ReplaceAllFunc(prefix + key, f) == prefix + ReplaceAllFunc(key, f)
  {
    BraceFreePrefixShiftsSpan(prefix, key);
    var g := GreedySpan(key);
    if g.Some? {
      ShiftedReplace(prefix, key, f, g.value.0, g.value.1);
    } else {
      NoSpanReplace(prefix + key, f);
      NoSpanReplace(key, f);
    }
  }

  lemma NoSpanReplace(s: string, f: string -> string)
    requires GreedySpan(s).None?
    ensures ReplaceAllFunc(s, f) == s
  {
  }

  lemma ShiftedReplace(prefix: string, key: string, f: string -> string, i: nat, j: nat)
    requires GreedySpan(key) == Some((i, j))
    requires GreedySpan(prefix + key) == Some((i + |prefix|, j + |prefix|))
    ensures ReplaceAllFunc(prefix + key, f) == prefix + ReplaceAllFunc(key, f)
  {
    var d := |prefix|;
    ReplaceStep(prefix + key, f, i + d, j + d);
    ReplaceStep(key, f, i, j);
    SlicesOfConcat(prefix, key, i, j);
    SeqAssoc(prefix, key[..i], f(key[i..j]), ReplaceAllFunc(key[j..], f));
  }

  lemma SlicesOfConcat(x: string, y: string, i: nat, j: nat)
    requires i <= j <= |y|
    ensures (x + y)[..i + |x|] == x + y[..i]
    ensures (x + y)[i + |x|..j + |x|] == y[i..j]
    ensures (x + y)[j + |x|..] == y[j..]
  {
  }

  lemma SeqAssoc(a: string, b: string, c: string, d: string)
    ensures (a + b) + c + d == a + (b + c + d)
  {
  }

  lemma ReplaceStep(s: string, f: string -> string, i: nat, j: nat)
    requires GreedySpan(s) == Some((i, j))
    ensures ReplaceAllFunc(s, f) == s[..i] + f(s[i..j]) + ReplaceAllFunc(s[j..], f)
  {
  }
}
