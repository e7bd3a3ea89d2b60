/** `text.replace(new RegExp(name, "g"), replacement)` in JavaScript, for a pattern
    whose characters are letters, digits, '_', '-' and '.'. In such a pattern every
    character but '.' stands for itself, and '.' stands for any one character other
    than a line terminator (no `s` flag is given). */
module Regex {
  import opened Wrappers

  /** The characters '.' does not match without the `s` flag. */
  predicate IsLineTerminator(c: char)
  {
    c == '\n' || c == '\r' || c == '\U{2028}' || c == '\U{2029}'
  }

  /** A character that is no regular-expression syntax except for the wildcard '.'. */
  predicate IsPlainPatternChar(c: char)
  {
    || 'a' <= c <= 'z'
    || 'A' <= c <= 'Z'
    || '0' <= c <= '9'
    || c == '_' || c == '-' || c == '.'
  }

  /** A non-empty pattern built only from plain characters: the patterns this model covers. */
  predicate PlainPattern(p: string)
  {
    |p| > 0 && forall i :: 0 <= i < |p| ==> IsPlainPatternChar(p[i])
  }

  predicate CharMatches(p: char, c: char)
  {
    if p == '.' then !IsLineTerminator(c) else p == c
  }

  /** The pattern matches the text starting at position `i`. */
  predicate MatchesAt(pat: string, s: string, i: nat)
  {
    i + |pat| <= |s| && forall k :: 0 <= k < |pat| ==> CharMatches(pat[k], s[i + k])
  }

  /** A text position where the literal name itself occurs is a match: the wildcard
      matches a '.' like any other character. */
  lemma OccurrenceMatches(pat: string, s: string, i: nat)
    requires PlainPattern(pat)
    requires i + |pat| <= |s| && s[i..i + |pat|] == pat
    ensures MatchesAt(pat, s, i)
  {
    forall k | 0 <= k < |pat|
      ensures CharMatches(pat[k], s[i + k])
    {
      assert s[i + k] == s[i..i + |pat|][k];
    }
  }

  /** One search of the regular expression from `lastIndex` = `i`: the first match at or
      after `i`. */
  function FindFrom(pat: string, s: string, i: nat): (r: Option<nat>)
    requires |pat| > 0
    decreases |s| - i
    ensures r.Some? ==> i <= r.value && MatchesAt(pat, s, r.value)
    ensures r.Some? ==> forall j :: i <= j < r.value ==> !MatchesAt(pat, s, j)
    ensures r.None? ==> forall j :: i <= j ==> !MatchesAt(pat, s, j)
  {
    if |s| < i + |pat| then None
    else if MatchesAt(pat, s, i) then Some(i)
    else FindFrom(pat, s, i + 1)
  }

  /** The start positions of the matches a global replace collects, searching from `i`:
      each search resumes where the previous match ended. */
  function Positions(pat: string, s: string, i: nat): seq<nat>
    requires |pat| > 0
    decreases |s| - i
  {
    match FindFrom(pat, s, i)
    case None => []
    case Some(p) => [p] + Positions(pat, s, p + |pat|)
  }

  /** Position `q` lies inside one of the matches of length `len` starting at `ps`. */
  predicate Covered(ps: seq<nat>, len: nat, q: nat)
  {
    |ps| > 0 && (ps[0] <= q < ps[0] + len || Covered(ps[1..], len, q))
  }

  /** Every position in `ps` is a match at or after `from`. */
  predicate AllMatch(pat: string, s: string, from: nat, ps: seq<nat>)
  {
    forall j :: 0 <= j < |ps| ==> from <= ps[j] && MatchesAt(pat, s, ps[j])
  }

  /** The matches starting at `ps` are in increasing order and do not overlap. */
  predicate Separated(ps: seq<nat>, len: nat)
  {
    forall j, k :: 0 <= j < k < |ps| ==> ps[j] + len <= ps[k]
  }

  /** Every match at or after `from` lies inside one of the matches starting at `ps`. */
  ghost predicate CoversMatches(pat: string, s: string, from: nat, ps: seq<nat>)
  {
    forall q :: from <= q && MatchesAt(pat, s, q) ==> Covered(ps, |pat|, q)
  }

  /** `ps` are the leftmost non-overlapping matches at or after `from`: each is a match,
      they are in increasing order without overlap, and every match position lies inside
      a chosen match. */
  ghost predicate LeftmostNonOverlapping(pat: string, s: string, from: nat, ps: seq<nat>)
  {
    AllMatch(pat, s, from, ps) && Separated(ps, |pat|) && CoversMatches(pat, s, from, ps)
  }

  /** The collected positions are exactly the leftmost non-overlapping matches. */
  lemma PositionsLeftmost(pat: string, s: string, i: nat)
    requires |pat| > 0
    ensures LeftmostNonOverlapping(pat, s, i, Positions(pat, s, i))
  {
    PositionsMatch(pat, s, i);
    PositionsSeparated(pat, s, i);
    PositionsCover(pat, s, i);
  }

  lemma {:induction false} PositionsMatch(pat: string, s: string, i: nat)
    requires |pat| > 0
    ensures AllMatch(pat, s, i, Positions(pat, s, i))
    decreases |s| - i
  {
    match FindFrom(pat, s, i)
    case None =>
    case Some(p) =>
      var rest := Positions(pat, s, p + |pat|);
      PositionsMatch(pat, s, p + |pat|);
      var ps := [p] + rest;
      assert ps == Positions(pat, s, i);
      forall j | 0 <= j < |ps|
        ensures i <= ps[j] && MatchesAt(pat, s, ps[j])
      {
        if j > 0 {
          assert ps[j] == rest[j - 1];
        }
      }
  }

  /** The collected positions increase and do not overlap. */
  lemma {:induction false} PositionsSeparated(pat: string, s: string, i: nat)
    requires |pat| > 0
    ensures Separated(Positions(pat, s, i), |pat|)
    decreases |s| - i
  {
    match FindFrom(pat, s, i)
    case None =>
    case Some(p) =>
      var rest := Positions(pat, s, p + |pat|);
      PositionsSeparated(pat, s, p + |pat|);
      PositionsMatch(pat, s, p + |pat|);
      var ps := [p] + rest;
      assert ps == Positions(pat, s, i);
      forall j, k | 0 <= j < k < |ps|
        ensures ps[j] + |pat| <= ps[k]
      {
        assert ps[k] == rest[k - 1];
        if j > 0 {
          assert ps[j] == rest[j - 1];
        }
      }
  }

  lemma {:induction false} PositionsCover(pat: string, s: string, i: nat)
    requires |pat| > 0
    ensures CoversMatches(pat, s, i, Positions(pat, s, i))
    decreases |s| - i
  {
    match FindFrom(pat, s, i)
    case None =>
    case Some(p) =>
      var rest := Positions(pat, s, p + |pat|);
      PositionsCover(pat, s, p + |pat|);
      var ps := [p] + rest;
      assert ps == Positions(pat, s, i);
      assert ps[1..] == rest;
      forall q | i <= q && MatchesAt(pat, s, q)
        ensures Covered(ps, |pat|, q)
      {
        if p + |pat| <= q {
          assert Covered(rest, |pat|, q);
        }
      }
  }

  lemma {:induction false} CoveredWitness(ps: seq<nat>, len: nat, q: nat) returns (j: nat)
    requires Covered(ps, len, q)
    ensures j < |ps| && ps[j] <= q < ps[j] + len
  {
    if ps[0] <= q < ps[0] + len {
      j := 0;
    } else {
      var j' := CoveredWitness(ps[1..], len, q);
      j := j' + 1;
    }
  }

  /** Dropping the first of the leftmost matches leaves the leftmost matches after it. */
  lemma LeftmostTail(pat: string, s: string, i: nat, ps: seq<nat>)
    requires LeftmostNonOverlapping(pat, s, i, ps)
    requires |ps| > 0
    ensures LeftmostNonOverlapping(pat, s, ps[0] + |pat|, ps[1..])
  {
    var rest := ps[1..];
    forall k | 0 <= k < |rest|
      ensures ps[0] + |pat| <= rest[k] && MatchesAt(pat, s, rest[k])
    {
      assert rest[k] == ps[k + 1];
    }
    forall k, m | 0 <= k < m < |rest|
      ensures rest[k] + |pat| <= rest[m]
    {
      assert rest[k] == ps[k + 1] && rest[m] == ps[m + 1];
    }
    forall q | ps[0] + |pat| <= q && MatchesAt(pat, s, q)
      ensures Covered(rest, |pat|, q)
    {
      assert Covered(ps, |pat|, q);
    }
  }

  /** The first of the leftmost matches is the first match. */
  lemma LeftmostHead(pat: string, s: string, i: nat, ps: seq<nat>)
    requires |pat| > 0
    requires LeftmostNonOverlapping(pat, s, i, ps)
    ensures FindFrom(pat, s, i).None? ==> ps == []
    ensures FindFrom(pat, s, i).Some? ==> |ps| > 0 && ps[0] == FindFrom(pat, s, i).value
  {
    if |ps| > 0 {
      assert MatchesAt(pat, s, ps[0]);
    }
    if FindFrom(pat, s, i).Some? {
      var p := FindFrom(pat, s, i).value;
      var j := CoveredWitness(ps, |pat|, p);
    }
  }

  lemma PositionsCons(pat: string, s: string, i: nat, ps: seq<nat>)
    requires |pat| > 0
    requires FindFrom(pat, s, i).Some? && |ps| > 0 && ps[0] == FindFrom(pat, s, i).value
    requires ps[1..] == Positions(pat, s, ps[0] + |pat|)
    ensures ps == Positions(pat, s, i)
  {
    assert ps == [ps[0]] + ps[1..];
  }

  /** The leftmost non-overlapping matches are determined by the text: any list of them
      is the list a global replace collects. */
  lemma {:induction false} LeftmostUnique(pat: string, s: string, i: nat, ps: seq<nat>)
    requires |pat| > 0
    requires LeftmostNonOverlapping(pat, s, i, ps)
    ensures ps == Positions(pat, s, i)
    decreases |s| - i
  {
    LeftmostHead(pat, s, i, ps);
    match FindFrom(pat, s, i)
    case None =>
    case Some(p) =>
      LeftmostTail(pat, s, i, ps);
      LeftmostUnique(pat, s, p + |pat|, ps[1..]);
      PositionsCons(pat, s, i, ps);
  }

  /** The match list is empty exactly when the pattern matches nowhere. */
  lemma NoPositionsIffNoMatch(pat: string, s: string)
    requires |pat| > 0
    ensures Positions(pat, s, 0) == [] <==> forall i :: !MatchesAt(pat, s, i)
  {
    PositionsLeftmost(pat, s, 0);
  }

  /** The characters `$` would start a substitution in a replacement string. */
  predicate NoDollar(r: string)
  {
    forall k :: 0 <= k < |r| ==> r[k] != '$'
  }

  /** The replacement text for one match of `s[start..end]` (GetSubstitution of the
      ECMAScript standard, for a pattern with no capture groups): "$$" gives "$", "$&" the
      match, "$`" the text before it, "$'" the text after it, and every other '$' is
      kept as written. */
  function Expand(repl: string, s: string, start: nat, end: nat): string
    requires start <= end <= |s|
    decreases |repl|
  {
    if |repl| == 0 then ""
    else if repl[0] == '$' && 2 <= |repl| && repl[1] == '$' then "$" + Expand(repl[2..], s, start, end)
    else if repl[0] == '$' && 2 <= |repl| && repl[1] == '&' then s[start..end] + Expand(repl[2..], s, start, end)
    else if repl[0] == '$' && 2 <= |repl| && repl[1] == '`' then s[..start] + Expand(repl[2..], s, start, end)
    else if repl[0] == '$' && 2 <= |repl| && repl[1] == '\'' then s[end..] + Expand(repl[2..], s, start, end)
    else [repl[0]] + Expand(repl[1..], s, start, end)
  }

  /** A replacement without '$' is inserted literally. */
  lemma {:induction false} ExpandLiteral(repl: string, s: string, start: nat, end: nat)
    requires start <= end <= |s|
    requires NoDollar(repl)
    ensures Expand(repl, s, start, end) == repl
    decreases |repl|
  {
    if |repl| > 0 {
      assert NoDollar(repl[1..]) by {
        forall k | 0 <= k < |repl[1..]| ensures repl[1..][k] != '$' {
          assert repl[1..][k] == repl[k + 1];
        }
      }
      ExpandLiteral(repl[1..], s, start, end);
    }
  }

  /** The result of a global replace from source position `i` on: the text up to the
      next match, its replacement, and so on; the text after the last match is kept. */
  function ReplaceFrom(pat: string, repl: string, s: string, i: nat): string
    requires |pat| > 0 && i <= |s|
    decreases |s| - i
  {
    match FindFrom(pat, s, i)
    case None => s[i..]
    case Some(p) => s[i..p] + Expand(repl, s, p, p + |pat|) + ReplaceFrom(pat, repl, s, p + |pat|)
  }

  /** `s.replace(new RegExp(pat, "g"), repl)`. */
  function GlobalReplace(pat: string, repl: string, s: string): string
    requires |pat| > 0
  {
    ReplaceFrom(pat, repl, s, 0)
  }

  /** Every position in `ps` starts a stretch of length `len` inside the text `s[from..]`. */
  predicate InText(ps: seq<nat>, from: nat, len: nat, n: nat)
  {
    forall j :: 0 <= j < |ps| ==> from <= ps[j] && ps[j] + len <= n
  }

  /** The text from `i` on with the stretches of length `len` starting at `ps` each replaced
      by the expansion of `repl` for that stretch. */
  function Splice(repl: string, s: string, i: nat, ps: seq<nat>, len: nat): string
    requires i <= |s| && InText(ps, i, len, |s|) && Separated(ps, len)
    decreases |ps|
  {
    if ps == [] then s[i..]
    else
      var e := ps[0] + len;
      assert InText(ps[1..], e, len, |s|) && Separated(ps[1..], len) by {
        forall j | 0 <= j < |ps[1..]| ensures e <= ps[1..][j] {
          assert ps[1..][j] == ps[j + 1];
        }
        forall j, k | 0 <= j < k < |ps[1..]| ensures ps[1..][j] + len <= ps[1..][k] {
          assert ps[1..][j] == ps[j + 1] && ps[1..][k] == ps[k + 1];
        }
      }
      s[i..ps[0]] + Expand(repl, s, ps[0], e) + Splice(repl, s, e, ps[1..], len)
  }

  /** Leftmost non-overlapping matches lie inside the text, one after another. */
  lemma LeftmostInText(pat: string, s: string, i: nat, ps: seq<nat>)
    requires LeftmostNonOverlapping(pat, s, i, ps)
    ensures InText(ps, i, |pat|, |s|) && Separated(ps, |pat|)
  {
  }

  /** A global replace from `i` splices the expanded replacement in at exactly the positions
      the searches collect. */
  lemma {:induction false} ReplaceFromSplices(pat: string, repl: string, s: string, i: nat)
    requires |pat| > 0 && i <= |s|
    ensures InText(Positions(pat, s, i), i, |pat|, |s|) && Separated(Positions(pat, s, i), |pat|)
    ensures ReplaceFrom(pat, repl, s, i) == Splice(repl, s, i, Positions(pat, s, i), |pat|)
    decreases |s| - i
  {
    PositionsLeftmost(pat, s, i);
    LeftmostInText(pat, s, i, Positions(pat, s, i));
    match FindFrom(pat, s, i)
    case None =>
    case Some(p) =>
      var e := p + |pat|;
      var ps := Positions(pat, s, i);
      assert ps == [p] + Positions(pat, s, e);
      assert ps[1..] == Positions(pat, s, e);
      ReplaceFromSplices(pat, repl, s, e);
  }

  /** `s.replace(new RegExp(pat, "g"), repl)` is the text with the replacement spliced in at
      the leftmost non-overlapping matches, whichever way those are found. */
  lemma GlobalReplaceSplices(pat: string, repl: string, s: string, ps: seq<nat>)
    requires |pat| > 0
    requires LeftmostNonOverlapping(pat, s, 0, ps)
    ensures InText(ps, 0, |pat|, |s|) && Separated(ps, |pat|)
    ensures GlobalReplace(pat, repl, s) == Splice(repl, s, 0, ps, |pat|)
  {
    LeftmostInText(pat, s, 0, ps);
    LeftmostUnique(pat, s, 0, ps);
    ReplaceFromSplices(pat, repl, s, 0);
  }

  /** Each match of `pat` is replaced by `repl`, the rest is kept, so the length changes by
      |repl| - |pat| per match. */
  lemma {:induction false} ReplaceFromLength(pat: string, repl: string, s: string, i: nat)
    requires |pat| > 0 && i <= |s|
    requires NoDollar(repl)
    ensures |ReplaceFrom(pat, repl, s, i)| == |s| - i - |Positions(pat, s, i)| * |pat| + |Positions(pat, s, i)| * |repl|
    decreases |s| - i
  {
    match FindFrom(pat, s, i)
    case None =>
    case Some(p) =>
      var next := p + |pat|;
      var n := |Positions(pat, s, next)|;
      assert |ReplaceFrom(pat, repl, s, i)| == (p - i) + |repl| + |ReplaceFrom(pat, repl, s, next)| by {
        ExpandLiteral(repl, s, p, next);
      }
      assert |Positions(pat, s, i)| == 1 + n;
      ReplaceFromLength(pat, repl, s, next);
      CountStep(n, |pat|, |repl|, |s|, i, p);
  }

  /** The arithmetic of one step of `ReplaceFromLength`. */
  lemma CountStep(n: nat, lp: nat, lr: nat, total: int, i: int, p: int)
    ensures (p - i) + lr + (total - (p + lp) - n * lp + n * lr)
         == total - i - (n + 1) * lp + (n + 1) * lr
  {
    SuccessorTimes(n, lp);
    SuccessorTimes(n, lr);
  }

  lemma SuccessorTimes(n: nat, a: nat)
    ensures (n + 1) * a == n * a + a
  {
  }

  lemma GlobalReplaceLength(pat: string, repl: string, s: string)
    requires |pat| > 0
    requires NoDollar(repl)
    ensures var n := |Positions(pat, s, 0)|;
      |GlobalReplace(pat, repl, s)| == |s| - n * |pat| + n * |repl|
  {
    ReplaceFromLength(pat, repl, s, 0);
  }

  /** A text in which the pattern matches exactly once, at the literal occurrence between
      `a` and `b`, has that occurrence replaced and everything else kept. */
  lemma GlobalReplaceSingle(pat: string, repl: string, a: string, b: string)
    requires PlainPattern(pat) && NoDollar(repl)
    requires forall q :: MatchesAt(pat, a + pat + b, q) ==> q == |a|
    ensures GlobalReplace(pat, repl, a + pat + b) == a + repl + b
  {
    var s := a + pat + b;
    SingleMatchFound(pat, a, b);
    ReplaceOnce(pat, repl, s, |a|);
    assert s[..|a|] == a && s[|a| + |pat|..] == b;
  }

  /** A global replace whose first search finds `p` and whose next search finds nothing
      replaces just the match at `p`. */
  lemma ReplaceOnce(pat: string, repl: string, s: string, p: nat)
    requires |pat| > 0 && NoDollar(repl) && p + |pat| <= |s|
    requires FindFrom(pat, s, 0) == Some(p) && FindFrom(pat, s, p + |pat|).None?
    ensures GlobalReplace(pat, repl, s) == s[..p] + repl + s[p + |pat|..]
  {
    var e := p + |pat|;
    ExpandLiteral(repl, s, p, e);
    assert ReplaceFrom(pat, repl, s, e) == s[e..];
    assert ReplaceFrom(pat, repl, s, 0) == s[0..p] + Expand(repl, s, p, e) + ReplaceFrom(pat, repl, s, e);
    assert s[0..p] == s[..p];
  }

  /** The searches `GlobalReplaceSingle` performs: the first finds the occurrence, the next
      finds nothing. */
  lemma SingleMatchFound(pat: string, a: string, b: string)
    requires PlainPattern(pat)
    requires forall q :: MatchesAt(pat, a + pat + b, q) ==> q == |a|
    ensures FindFrom(pat, a + pat + b, 0) == Some(|a|)
    ensures FindFrom(pat, a + pat + b, |a| + |pat|).None?
  {
    var s := a + pat + b;
    assert s[|a|..|a| + |pat|] == pat;
    OccurrenceMatches(pat, s, |a|);
  }

  /** The '.' in a segment name matches any character but a line terminator, so the name
      "seg0.ts" also matches "seg0xts". */
  lemma DotMatchesAnyCharacter()
    ensures MatchesAt("seg0.ts", "seg0xts", 0)
    ensures !MatchesAt("seg0.ts", "seg0\nts", 0)
  {
    assert !CharMatches("seg0.ts"[4], "seg0\nts"[0 + 4]);
  }

  /** A name that is a prefix of another up to the dot is not mistaken for it: "seg1.ts"
      does not match in "seg10.ts", because its 't' meets the second name's '.'. */
  lemma LongerNameUntouched(repl: string)
    ensures GlobalReplace("seg1.ts", repl, "seg10.ts") == "seg10.ts"
  {
    var pat, s := "seg1.ts", "seg10.ts";
    forall i ensures !MatchesAt(pat, s, i) {
      if i == 0 {
        assert !CharMatches(pat[5], s[0 + 5]);
      } else if i == 1 {
        assert !CharMatches(pat[0], s[1 + 0]);
      }
    }
    GlobalReplaceNoMatch(pat, repl, s);
  }

  /** A name that ends with another name is rewritten inside: replacing "seg1.ts" turns the
      text "aseg1.ts" into "a" followed by the replacement. */
  lemma SuffixNameRewritten(repl: string)
    requires NoDollar(repl)
    ensures GlobalReplace("seg1.ts", repl, "aseg1.ts") == "a" + repl
  {
    var pat, s := "seg1.ts", "aseg1.ts";
    assert s == "a" + pat + "";
    forall q ensures MatchesAt(pat, s, q) ==> q == 1 {
      if q == 0 {
        assert !CharMatches(pat[0], s[0 + 0]);
      }
    }
    GlobalReplaceSingle(pat, repl, "a", "");
  }

  /** A text the pattern matches nowhere comes back unchanged. */
  lemma GlobalReplaceNoMatch(pat: string, repl: string, s: string)
    requires |pat| > 0
    requires forall i :: !MatchesAt(pat, s, i)
    ensures GlobalReplace(pat, repl, s) == s
  {
    assert FindFrom(pat, s, 0).None?;
  }
}
