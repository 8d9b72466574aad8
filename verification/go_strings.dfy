/**
  The few functions of Go's `strings` package that the generator's path
  and request handling rely on, stated over `string` (= `seq<char>`).
  `strings.Replace(s, old, repl, 1)` is `ReplaceFirst`; `strings.HasSuffix`
  is `HasSuffix`; `strings.Contains` is `Contains`.
 */
module GoStrings {

  datatype Option<T> = None | Some(value: T)

  /** `pat` occurs in `s` starting at index `i`. */
  predicate OccursAt(s: string, pat: string, i: nat) {
    i + |pat| <= |s| && s[i..i + |pat|] == pat
  }

  /** Leftmost occurrence of `pat` in `s` at or after `from`. */
  function IndexFrom(s: string, pat: string, from: nat): (r: Option<nat>)
    requires from <= |s|
    decreases |s| - from
    ensures r.Some? ==> from <= r.value && OccursAt(s, pat, r.value)
    ensures r.Some? ==> forall j: nat :: from <= j < r.value ==> !OccursAt(s, pat, j)
    ensures r.None? ==> forall j: nat :: from <= j ==> !OccursAt(s, pat, j)
  {
    if OccursAt(s, pat, from) then Some(from)
    else if from == |s| then None
    else IndexFrom(s, pat, from + 1)
  }

  /** `strings.Index`: the leftmost occurrence of `pat` in `s`, if any. */
  function Index(s: string, pat: string): Option<nat> {
    IndexFrom(s, pat, 0)
  }

  /** `strings.Contains`. */
  predicate Contains(s: string, pat: string) {
    Index(s, pat).Some?
  }

  /** `strings.HasSuffix`. */
  predicate HasSuffix(s: string, suffix: string) {
    |suffix| <= |s| && s[|s| - |suffix|..] == suffix
  }

  /**
    `strings.Replace(s, old, repl, 1)`: the leftmost occurrence of `old` is
    replaced by `repl`; without an occurrence `s` is returned unchanged. An
    empty `old` occurs at index 0, so `repl` is then put in front.
   */
  function ReplaceFirst(s: string, pat: string, repl: string): (r: string)
    ensures !Contains(s, pat) ==> r == s
    ensures Contains(s, pat) ==> |r| + |pat| == |s| + |repl|
  {
    match Index(s, pat)
    case None => s
    case Some(i) => s[..i] + repl + s[i + |pat|..]
  }

  /**
    `ReplaceFirst` stated through occurrences alone: unchanged without one,
    otherwise the leftmost one, and only it, is replaced.
   */
  lemma ReplaceFirstLeftmost(s: string, pat: string, repl: string, i: nat)
    ensures (forall j: nat :: !OccursAt(s, pat, j)) ==> ReplaceFirst(s, pat, repl) == s
    ensures OccursAt(s, pat, i) && (forall j: nat :: j < i ==> !OccursAt(s, pat, j)) ==>
      ReplaceFirst(s, pat, repl) == s[..i] + repl + s[i + |pat|..]
  {
  }

  /** `Contains` is the existence of an occurrence. */
  lemma ContainsIff(s: string, pat: string)
    ensures Contains(s, pat) <==> exists i: nat :: OccursAt(s, pat, i)
  {
  }

  /** For a one-character pattern `Contains` is plain membership. */
  lemma {:induction false} ContainsChar(s: string, c: char)
    ensures Contains(s, [c]) <==> c in s
  {
    if c in s {
      var i :| 0 <= i < |s| && s[i] == c;
      assert OccursAt(s, [c], i);
    }
    if Contains(s, [c]) {
      var i := Index(s, [c]).value;
      assert s[i..i + 1] == [c];
      assert s[i] == c;
    }
  }

  /** Concatenation regrouped. */
  lemma ConcatAssoc(a: string, b: string, c: string)
    ensures a + b + c == a + (b + c)
  {
  }

  /** Replacing a prefix: the first occurrence of `a` in `a + b` is at 0. */
  lemma ReplaceFirstAtFront(a: string, b: string, repl: string)
    ensures ReplaceFirst(a + b, a, repl) == repl + b
  {
    assert OccursAt(a + b, a, 0) by { assert (a + b)[..|a|] == a; }
    assert (a + b)[|a|..] == b;
  }

  /** Replacing `x` by itself never changes anything (Go's `old == repl` fast path agrees). */
  lemma ReplaceFirstSame(s: string, x: string)
    ensures ReplaceFirst(s, x, x) == s
  {
    match Index(s, x)
    case None =>
    case Some(i) =>
      assert s[i..i + |x|] == x;
      assert s[..i] + x + s[i + |x|..] == s[..i] + s[i..i + |x|] + s[i + |x|..];
      assert s[..i] + s[i..i + |x|] + s[i + |x|..] == s;
  }

  /** Replacing an empty pattern by the empty string leaves `s` unchanged. */
  lemma ReplaceFirstEmpty(s: string)
    ensures ReplaceFirst(s, "", "") == s
  {
    ReplaceFirstSame(s, "");
  }

  /** An occurrence in `b` is an occurrence in `a + b`, shifted by `|a|`. */
  lemma OccursShifted(a: string, b: string, pat: string, j: nat)
    ensures OccursAt(a + b, pat, |a| + j) <==> OccursAt(b, pat, j)
  {
    if |a| + j + |pat| <= |a + b| {
      assert (a + b)[|a| + j..|a| + j + |pat|] == b[j..j + |pat|];
    }
  }

  /** The leftmost occurrence of `pat` in `s`, if any, starts at `n` or later. */
  predicate FirstAtOrAfter(s: string, pat: string, n: nat) {
    Index(s, pat).None? || n <= Index(s, pat).value
  }

  lemma NoEarlyOccurrence(a: string, b: string, pat: string)
    requires forall i: nat :: i < |a| ==> !OccursAt(a + b, pat, i)
    ensures FirstAtOrAfter(a + b, pat, |a|)
  {
  }

  /** When the first occurrence in `a + b` is not inside `a`, it is the first occurrence in `b`, shifted. */
  lemma IndexAfter(a: string, b: string, pat: string)
    requires FirstAtOrAfter(a + b, pat, |a|)
    ensures Index(b, pat).None? ==> Index(a + b, pat).None?
    ensures Index(b, pat).Some? ==> Index(a + b, pat) == Some(|a| + Index(b, pat).value)
  {
    var s := a + b;
    if Index(s, pat).Some? {
      OccursShifted(a, b, pat, Index(s, pat).value - |a|);
    }
    if Index(b, pat).Some? {
      OccursShifted(a, b, pat, Index(b, pat).value);
    }
  }

  lemma SlicesOfConcat(a: string, b: string, k: nat, m: nat)
    requires k + m <= |b|
    ensures (a + b)[..|a| + k] == a + b[..k]
    ensures (a + b)[|a| + k + m..] == b[k + m..]
  {
  }

  lemma ReplaceFirstAt(s: string, pat: string, repl: string, i: nat)
    requires Index(s, pat) == Some(i)
    ensures ReplaceFirst(s, pat, repl) == s[..i] + repl + s[i + |pat|..]
  {
  }

  lemma ReplaceFirstNone(s: string, pat: string, repl: string)
    requires Index(s, pat).None?
    ensures ReplaceFirst(s, pat, repl) == s
  {
  }

  /**
    When no occurrence of `pat` starts inside `a`, replacing in `a + b`
    is replacing in `b` alone.
   */
  lemma {:induction false} ReplaceFirstAfter(a: string, b: string, pat: string, repl: string)
    requires FirstAtOrAfter(a + b, pat, |a|)
    ensures ReplaceFirst(a + b, pat, repl) == a + ReplaceFirst(b, pat, repl)
  {
    IndexAfter(a, b, pat);
    match Index(b, pat)
    case None =>
      ReplaceFirstNone(a + b, pat, repl);
      ReplaceFirstNone(b, pat, repl);
    case Some(k) =>
      var x, y := b[..k], b[k + |pat|..];
      SlicesOfConcat(a, b, k, |pat|);
      ReplaceFirstAt(a + b, pat, repl, |a| + k);
      ReplaceFirstAt(b, pat, repl, k);
      ConcatAssoc(a, x, repl);
      ConcatAssoc(a, x + repl, y);
  }

  /** No occurrence starts before `n` when the pattern's first character is absent from `s[..n]`. */
  lemma NoOccurrenceBefore(s: string, pat: string, n: nat)
    requires |pat| >= 1 && n <= |s| && pat[0] !in s[..n]
    ensures forall j: nat :: j < n ==> !OccursAt(s, pat, j)
  {
    forall j: nat | j < n ensures !OccursAt(s, pat, j) {
      assert s[..n][j] == s[j];
    }
  }

  /**
    Replacement at a known first occurrence: when `pat` occurs at `i` and its
    first character appears nowhere before `i`, that occurrence is the one
    replaced.
   */
  lemma ReplaceFirstAtFirst(s: string, pat: string, repl: string, i: nat)
    requires |pat| >= 1 && OccursAt(s, pat, i) && pat[0] !in s[..i]
    ensures ReplaceFirst(s, pat, repl) == s[..i] + repl + s[i + |pat|..]
  {
    NoOccurrenceBefore(s, pat, i);
    var k := Index(s, pat).value;
    assert !(k < i);
  }
}
