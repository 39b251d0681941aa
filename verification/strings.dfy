/** The two pieces of Python's `str` API the scripts call, `s.split(sep)` and
    `s.replace(tok, v)`, for a non-empty token. `Occurs`, `Find` and `Join` are reference
    definitions (Python's `tok in s`, `s.find(tok)` and `sep.join(parts)`) that `SplitOn`
    and `ReplaceAll` are stated against; the scripts do not call them. */
module Strings {
  import opened Wrappers
  import Sequences

  /** `tok` occurs in `s` starting at index `j`. */
  predicate MatchAt(s: string, tok: string, j: int) {
    0 <= j && j + |tok| <= |s| && s[j..j + |tok|] == tok
  }

  /** `tok in s`. */
  predicate Occurs(s: string, tok: string) {
    exists j :: 0 <= j <= |s| && MatchAt(s, tok, j)
  }

  /** The scan of `s.find(tok)` from index `i` on. */
  function FindFrom(s: string, tok: string, i: nat): Option<nat>
    requires |tok| > 0 && i <= |s|
    decreases |s| - i
  {
    if i + |tok| > |s| then None
    else if MatchAt(s, tok, i) then Some(i)
    else FindFrom(s, tok, i + 1)
  }

  /** Index of the leftmost occurrence of `tok` in `s` (Python's `s.find(tok)`, None for -1). */
  function Find(s: string, tok: string): Option<nat>
    requires |tok| > 0
  {
    FindFrom(s, tok, 0)
  }

  lemma {:induction false} FindFromSpec(s: string, tok: string, i: nat)
    requires |tok| > 0 && i <= |s|
    decreases |s| - i
    ensures FindFrom(s, tok, i).Some? ==>
              && i <= FindFrom(s, tok, i).value
              && MatchAt(s, tok, FindFrom(s, tok, i).value)
              && forall j :: i <= j < FindFrom(s, tok, i).value ==> !MatchAt(s, tok, j)
    ensures FindFrom(s, tok, i).None? ==> forall j :: i <= j ==> !MatchAt(s, tok, j)
  {
    if i + |tok| > |s| {
    } else if MatchAt(s, tok, i) {
    } else {
      FindFromSpec(s, tok, i + 1);
    }
  }

  /** `Find` returns the leftmost index at which the token occurs, and None exactly when
      it occurs nowhere. */
  lemma FindSpec(s: string, tok: string)
    requires |tok| > 0
    ensures Find(s, tok).Some? ==> MatchAt(s, tok, Find(s, tok).value)
    ensures Find(s, tok).Some? ==> forall j :: 0 <= j < Find(s, tok).value ==> !MatchAt(s, tok, j)
    ensures Find(s, tok).None? <==> !Occurs(s, tok)
  {
    FindFromSpec(s, tok, 0);
  }

  /** The leftmost match is what `Find` reports. */
  lemma FindFirst(s: string, tok: string, i: nat)
    requires |tok| > 0
    requires MatchAt(s, tok, i)
    requires forall j :: 0 <= j < i ==> !MatchAt(s, tok, j)
    ensures Find(s, tok) == Some(i)
  {
    FindSpec(s, tok);
  }

  /** `sep.join(parts)`. */
  function Join(parts: seq<string>, sep: string): string
    decreases |parts|
  {
    if |parts| == 0 then ""
    else if |parts| == 1 then parts[0]
    else parts[0] + sep + Join(parts[1..], sep)
  }

  /** Text free of matches before index `i` has a prefix of length `i` free of the token. */
  lemma NoMatchBefore(s: string, tok: string, i: nat)
    requires |tok| > 0 && i <= |s|
    requires forall j :: 0 <= j < i ==> !MatchAt(s, tok, j)
    ensures !Occurs(s[..i], tok)
  {
    var p := s[..i];
    forall j | 0 <= j <= |p| ensures !MatchAt(p, tok, j) {
      if j + |tok| <= |p| {
        assert j < i && !MatchAt(s, tok, j);
        assert p[j..j + |tok|] == s[j..j + |tok|];
      }
    }
  }

  /** `s.split(tok)`: the pieces between leftmost non-overlapping occurrences of `tok`.
      There is always at least one piece, no piece contains `tok`, and joining the
      pieces back with `tok` gives `s` again. */
  function SplitOn(s: string, tok: string): (parts: seq<string>)
    requires |tok| > 0
    decreases |s|
    ensures |parts| >= 1
    ensures forall p :: p in parts ==> !Occurs(p, tok)
    ensures Join(parts, tok) == s
  {
    FindSpec(s, tok);
    match Find(s, tok)
    case None => [s]
    case Some(i) =>
      var rest := SplitOn(s[i + |tok|..], tok);
      NoMatchBefore(s, tok, i);
      assert s == s[..i] + tok + s[i + |tok|..];
      [s[..i]] + rest
  }

  /** For a one-character separator, a first piece free of the separator is split off
      whole, and the rest is split on its own. */
  lemma SplitOnFirst(a: string, sep: string, t: string)
    requires |sep| == 1 && !Occurs(a, sep)
    ensures SplitOn(a + sep + t, sep) == [a] + SplitOn(t, sep)
  {
    var s := a + sep + t;
    forall j | 0 <= j < |a|
      ensures !MatchAt(s, sep, j)
    {
      assert !MatchAt(a, sep, j);
      assert s[j..j + 1] == a[j..j + 1];
    }
    assert MatchAt(s, sep, |a|) by { assert s[|a|..|a| + 1] == sep; }
    FindFirst(s, sep, |a|);
    assert s[|a| + 1..] == t;
    assert s[..|a|] == a;
  }

  /** For a one-character separator, splitting undoes joining pieces that do not
      contain the separator. */
  lemma {:induction false} SplitJoin(parts: seq<string>, sep: string)
    requires |sep| == 1 && |parts| >= 1
    requires forall p :: p in parts ==> !Occurs(p, sep)
    decreases |parts|
    ensures SplitOn(Join(parts, sep), sep) == parts
  {
    var a := parts[0];
    assert a in parts;
    if |parts| == 1 {
      FindSpec(a, sep);
    } else {
      SplitOnFirst(a, sep, Join(parts[1..], sep));
      SplitJoin(parts[1..], sep);
      assert [a] + parts[1..] == parts;
    }
  }

  // ----- `s.replace(tok, v)` -----

  /** `s.replace(tok, v)`: scanning from the left, every occurrence of `tok` becomes `v` and
      the scan resumes after it; every other character is copied. Text that does not
      contain the token is returned unchanged. */
  function ReplaceAll(s: string, tok: string, v: string): (r: string)
    requires |tok| > 0
    decreases |s|
    ensures !Occurs(s, tok) ==> r == s
  {
    if |s| == 0 then ""
    else if MatchAt(s, tok, 0) then v + ReplaceAll(s[|tok|..], tok, v)
    else
      OccursInTail(s, tok);
      assert s == [s[0]] + s[1..];
      [s[0]] + ReplaceAll(s[1..], tok, v)
  }

  /** A match in the tail is a match in the whole text, one position later. */
  lemma MatchInTail(s: string, tok: string, j: nat)
    requires |s| > 0 && MatchAt(s[1..], tok, j)
    ensures MatchAt(s, tok, j + 1)
  {
    assert s[j + 1..j + 1 + |tok|] == s[1..][j..j + |tok|];
  }

  /** Text whose tail contains the token contains it. */
  lemma OccursInTail(s: string, tok: string)
    requires |s| > 0
    ensures Occurs(s[1..], tok) ==> Occurs(s, tok)
  {
    if Occurs(s[1..], tok) {
      var j :| 0 <= j <= |s[1..]| && MatchAt(s[1..], tok, j);
      MatchInTail(s, tok, j);
    }
  }

  /** Replacing a token that is the whole text gives the replacement. */
  lemma ReplaceAllWhole(tok: string, v: string)
    requires |tok| > 0
    ensures ReplaceAll(tok, tok, v) == v
  {
    assert tok[0..|tok|] == tok;
    assert MatchAt(tok, tok, 0);
    assert tok[|tok|..] == "";
  }

  /** The seam between `a` and `b` cannot be straddled by the token: the character on one
      side of it is not part of the token. */
  predicate SafeSeam(a: string, b: string, tok: string) {
    |a| == 0 || a[|a| - 1] !in tok || (|b| > 0 && b[0] !in tok)
  }

  /** At an index of `a`, `a + b` matches exactly when `a` does, if the seam is safe. */
  lemma MatchInPrefix(a: string, b: string, tok: string, i: nat)
    requires |tok| > 0 && i < |a| && SafeSeam(a, b, tok)
    ensures MatchAt(a + b, tok, i) <==> MatchAt(a, tok, i)
  {
    var s := a + b;
    if i + |tok| <= |a| {
      assert s[i..i + |tok|] == a[i..i + |tok|];
    } else if i + |tok| <= |s| {
      assert s[i..i + |tok|][|a| - 1 - i] == a[|a| - 1];
      assert s[i..i + |tok|][|a| - i] == b[0];
    }
  }

  /** Dropping a prefix of `a` from `a + b` keeps the seam, and keeps it safe. */
  lemma DropFromConcat(a: string, b: string, tok: string, n: nat)
    requires 0 < n <= |a| && SafeSeam(a, b, tok)
    ensures (a + b)[n..] == a[n..] + b
    ensures SafeSeam(a[n..], b, tok)
  {
    if n < |a| {
      assert a[n..][|a[n..]| - 1] == a[|a| - 1];
    }
  }

  /** The first step of `replace` on `a + b` is the first step on `a`, when the seam is safe:
      `n` is how much of `a` the step consumes and `out` what it emits. */
  lemma ConcatStep(a: string, b: string, tok: string, v: string) returns (n: nat, out: string)
    requires |tok| > 0 && |a| > 0 && SafeSeam(a, b, tok)
    ensures 0 < n <= |a|
    ensures ReplaceAll(a, tok, v) == out + ReplaceAll(a[n..], tok, v)
    ensures ReplaceAll(a + b, tok, v) == out + ReplaceAll(a[n..] + b, tok, v)
    ensures SafeSeam(a[n..], b, tok)
  {
    MatchInPrefix(a, b, tok, 0);
    assert (a + b)[0] == a[0];
    if MatchAt(a, tok, 0) {
      n, out := |tok|, v;
    } else {
      n, out := 1, [a[0]];
    }
    DropFromConcat(a, b, tok, n);
  }

  /** `replace` distributes over a concatenation whose seam is safe. */
  lemma {:induction false} ReplaceAllConcat(a: string, b: string, tok: string, v: string)
    requires |tok| > 0
    requires SafeSeam(a, b, tok)
    decreases |a|
    ensures ReplaceAll(a + b, tok, v) == ReplaceAll(a, tok, v) + ReplaceAll(b, tok, v)
  {
    if |a| == 0 {
      assert a + b == b;
    } else {
      var n, out := ConcatStep(a, b, tok, v);
      ReplaceAllConcat(a[n..], b, tok, v);
      Sequences.Regroup(out, ReplaceAll(a[n..], tok, v), ReplaceAll(b, tok, v));
    }
  }

  /** Up to the first match, `replace` copies the text. */
  lemma {:induction false} ReplaceAllCopiesPrefix(s: string, tok: string, v: string, i: nat)
    requires |tok| > 0 && i <= |s|
    requires forall j :: 0 <= j < i ==> !MatchAt(s, tok, j)
    decreases i
    ensures ReplaceAll(s, tok, v) == s[..i] + ReplaceAll(s[i..], tok, v)
  {
    if i > 0 {
      var t := s[1..];
      assert !MatchAt(s, tok, 0);
      forall j | 0 <= j < i - 1 ensures !MatchAt(t, tok, j) {
        if MatchAt(t, tok, j) {
          MatchInTail(s, tok, j);
        }
      }
      ReplaceAllCopiesPrefix(t, tok, v, i - 1);
      assert t[i - 1..] == s[i..];
      assert [s[0]] + t[..i - 1] == s[..i];
      Sequences.Regroup([s[0]], t[..i - 1], ReplaceAll(s[i..], tok, v));
    }
  }

  /** The reference definition of Python's `replace`: `v.join(s.split(tok))`. */
  lemma {:induction false} ReplaceIsSplitJoin(s: string, tok: string, v: string)
    requires |tok| > 0
    decreases |s|
    ensures ReplaceAll(s, tok, v) == Join(SplitOn(s, tok), v)
  {
    FindSpec(s, tok);
    match Find(s, tok)
    case None =>
    case Some(i) =>
      var tail := s[i + |tok|..];
      var rest := SplitOn(tail, tok);
      ReplaceIsSplitJoin(tail, tok, v);
      ReplaceAllCopiesPrefix(s, tok, v, i);
      assert s[i..][..|tok|] == s[i..i + |tok|];
      assert MatchAt(s[i..], tok, 0);
      assert s[i..][|tok|..] == tail;
      assert SplitOn(s, tok) == [s[..i]] + rest;
      assert ([s[..i]] + rest)[1..] == rest;
      Sequences.Regroup(s[..i], v, ReplaceAll(tail, tok, v));
  }

  // ----- Occurrence -----

  /** A text that starts with the token contains it. */
  lemma OccursAtStart(tok: string, b: string)
    ensures Occurs(tok + b, tok)
  {
    assert (tok + b)[..|tok|] == tok;
    assert MatchAt(tok + b, tok, 0);
  }

  /** Text added in front keeps every occurrence. */
  lemma OccursExtendLeft(a: string, b: string, tok: string)
    requires Occurs(b, tok)
    ensures Occurs(a + b, tok)
  {
    var j :| 0 <= j <= |b| && MatchAt(b, tok, j);
    assert j + |tok| <= |b| && b[j..j + |tok|] == tok;
    assert (a + b)[|a| + j..|a| + j + |tok|] == b[j..j + |tok|];
    assert MatchAt(a + b, tok, |a| + j);
  }

  /** A text lacking one of the token's characters does not contain the token. */
  lemma MissingCharNoOccurrence(s: string, tok: string, c: char)
    requires c in tok && c !in s
    ensures !Occurs(s, tok)
  {
    var k :| 0 <= k < |tok| && tok[k] == c;
    forall j | 0 <= j <= |s| ensures !MatchAt(s, tok, j) {
      if j + |tok| <= |s| {
        assert s[j..j + |tok|][k] == s[j + k];
        assert s[j + k] in s;
      }
    }
  }
}
