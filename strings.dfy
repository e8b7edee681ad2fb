/** The string operations the substitution engine of src/index.js relies on:
    `String.prototype.includes`, `String.prototype.replace` with a string
    pattern (which replaces the leftmost occurrence only), and a count of
    occurrences used to state how many replacements a template needs.
    The second half describes templates whose placeholders are flat
    `[key]` tokens and proves how one replacement changes the counts. */
module Strings {

  datatype Option<T> = None | Some(value: T)

  /** `pat` occurs in `s` starting at index `i`. */
  predicate IsAt(s: string, pat: string, i: nat) {
    i + |pat| <= |s| && s[i..i + |pat|] == pat
  }

  /** The leftmost index at or after `from` where `pat` occurs in `s`,
      or None. */
  function IndexOf(s: string, pat: string, from: nat): (r: Option<nat>)
    ensures r.Some? ==> from <= r.value && IsAt(s, pat, r.value)
    ensures r.Some? ==> forall j: nat :: from <= j < r.value ==> !IsAt(s, pat, j)
    ensures r.None? ==> forall j: nat :: from <= j ==> !IsAt(s, pat, j)
    decreases |s| - from
  {
    if from + |pat| > |s| then None
    else if IsAt(s, pat, from) then Some(from)
    else IndexOf(s, pat, from + 1)
  }

  /** `s.includes(pat)`. */
  predicate Contains(s: string, pat: string) {
    IndexOf(s, pat, 0).Some?
  }

  /** `includes` finds `pat` exactly when it occurs at some index. */
  lemma ContainsExactly(s: string, pat: string)
    ensures Contains(s, pat) <==> exists i: nat :: IsAt(s, pat, i)
  {
    if Contains(s, pat) {
      assert IsAt(s, pat, IndexOf(s, pat, 0).value);
    }
  }

  /** `s.replace(pat, r)` for a string `pat`: the leftmost occurrence of
      `pat` becomes `r`; without an occurrence `s` is returned unchanged.
      The replacement text is inserted literally. */
  function ReplaceFirst(s: string, pat: string, r: string): (t: string)
    ensures !Contains(s, pat) ==> t == s
    ensures Contains(s, pat) ==> |t| == |s| - |pat| + |r|
  {
    match IndexOf(s, pat, 0)
    case None => s
    case Some(i) => s[..i] + r + s[i + |pat|..]
  }

  /** `replace` acts on the leftmost occurrence: when `pat` occurs at `i`
      and nowhere before, the text before `i` and after that occurrence
      is kept and only the occurrence becomes `r`. */
  lemma ReplaceFirstLeftmost(s: string, pat: string, r: string, i: nat)
    requires IsAt(s, pat, i)
    requires forall j: nat :: j < i ==> !IsAt(s, pat, j)
    ensures Contains(s, pat)
    ensures ReplaceFirst(s, pat, r) == s[..i] + r + s[i + |pat|..]
  {
    var k := IndexOf(s, pat, 0);
    assert k.Some? && k.value <= i;
  }

  /** The number of indices at which `pat` occurs in `s`. */
  function CountOcc(s: string, pat: string): nat
    decreases |s|
  {
    if s == [] then 0
    else (if IsAt(s, pat, 0) then 1 else 0) + CountOcc(s[1..], pat)
  }

  lemma IsAtTail(s: string, pat: string, i: nat)
    requires |s| > 0
    ensures IsAt(s, pat, i + 1) <==> IsAt(s[1..], pat, i)
  {
    if i + 1 + |pat| <= |s| {
      assert s[i + 1..i + 1 + |pat|] == s[1..][i..i + |pat|];
    }
  }

  /** A non-empty pattern is counted at least once exactly when `includes`
      finds it. */
  lemma {:induction false} CountPositive(s: string, pat: string)
    requires |pat| > 0
    ensures CountOcc(s, pat) > 0 <==> Contains(s, pat)
  {
    if s == [] {
      assert IndexOf(s, pat, 0).None?;
    } else {
      CountPositive(s[1..], pat);
      if Contains(s[1..], pat) {
        var i := IndexOf(s[1..], pat, 0).value;
        IsAtTail(s, pat, i);
        assert IsAt(s, pat, i + 1);
      }
      if Contains(s, pat) && !IsAt(s, pat, 0) {
        var i := IndexOf(s, pat, 0).value;
        IsAtTail(s, pat, i - 1);
        assert IsAt(s[1..], pat, i - 1);
      }
    }
  }

  // ---------------------------------------------------------------------
  // Flat placeholders

  /** The placeholder `[key]` that a template uses for category `key`. */
  function Placeholder(key: string): string {
    "[" + key + "]"
  }

  predicate BracketFree(s: string) {
    '[' !in s && ']' !in s
  }

  /** Whether a '[' is unclosed after reading `c` in state `open`. */
  function Step(open: bool, c: char): bool {
    if c == '[' then true else if c == ']' then false else open
  }

  /** Whether a '[' is still unclosed after reading `s` from state `open`. */
  function Open(s: string, open: bool): bool
    decreases |s|
  {
    if s == [] then open else Open(s[1..], Step(open, s[0]))
  }

  /** Reading `s` from state `open`, no '[' comes while an earlier '[' is
      still unclosed. */
  predicate Flat(s: string, open: bool)
    decreases |s|
  {
    s == [] || (!(open && s[0] == '[') && Flat(s[1..], Step(open, s[0])))
  }

  /** Between any two '[' of `s` there is a ']': placeholders never nest. */
  predicate WellNested(s: string) {
    Flat(s, false)
  }

  lemma {:induction false} OpenConcat(x: string, y: string, open: bool)
    ensures Open(x + y, open) == Open(y, Open(x, open))
    decreases |x|
  {
    if x == [] {
      assert x + y == y;
    } else {
      assert (x + y)[1..] == x[1..] + y;
      OpenConcat(x[1..], y, Step(open, x[0]));
    }
  }

  lemma {:induction false} FlatConcat(x: string, y: string, open: bool)
    ensures Flat(x + y, open) <==> Flat(x, open) && Flat(y, Open(x, open))
    decreases |x|
  {
    if x == [] {
      assert x + y == y;
    } else {
      assert (x + y)[1..] == x[1..] + y;
      FlatConcat(x[1..], y, Step(open, x[0]));
    }
  }

  /** Text without brackets leaves the bracket state alone. */
  lemma {:induction false} BracketFreeState(s: string, open: bool)
    requires BracketFree(s)
    ensures Open(s, open) == open && Flat(s, open)
    decreases |s|
  {
    if s != [] {
      assert s[0] in s;
      assert forall c :: c in s[1..] ==> c in s;
      BracketFreeState(s[1..], open);
    }
  }

  /** A placeholder always ends closed, and it is flat exactly when no
      '[' was open before it. */
  lemma PlaceholderState(key: string, open: bool)
    requires BracketFree(key)
    ensures !Open(Placeholder(key), open)
    ensures Flat(Placeholder(key), open) <==> !open
  {
    var p := Placeholder(key);
    assert p == "[" + (key + "]");
    assert p[1..] == key + "]";
    BracketFreeState(key, true);
    OpenConcat(key, "]", true);
    FlatConcat(key, "]", true);
    assert Open(p, open) == Open(key + "]", true);
  }

  lemma {:induction false} ClosedFromOpen(s: string)
    requires !Open(s, true)
    ensures !Open(s, false)
    decreases |s|
  {
    if s != [] {
      if s[0] != '[' && s[0] != ']' {
        ClosedFromOpen(s[1..]);
      }
    }
  }

  /** A prefix without '[' holds no occurrence of a pattern that starts
      with '['. */
  lemma {:induction false} CountAfterOpenFree(x: string, y: string, q: string)
    requires '[' !in x && |q| > 0 && q[0] == '['
    ensures CountOcc(x + y, q) == CountOcc(y, q)
    decreases |x|
  {
    if x == [] {
      assert x + y == y;
    } else {
      assert (x + y)[1..] == x[1..] + y;
      assert (x + y)[0] == x[0];
      assert x[0] in x;
      assert forall c :: c in x[1..] ==> c in x;
      CountAfterOpenFree(x[1..], y, q);
    }
  }

  lemma SliceBracketFree(w: string, n: nat)
    requires BracketFree(w) && n <= |w|
    ensures BracketFree(w[..n])
  {
    assert forall c :: c in w[..n] ==> c in w;
  }

  lemma {:induction false} OpenAfterBracketFree(s: string)
    ensures BracketFree(s) ==> Open(s, true)
  {
    if BracketFree(s) {
      BracketFreeState(s, true);
    }
  }

  /** Where `[w]` occurs at the front of `s`, the text after the '['
      spells out `w`. */
  lemma PlaceholderPrefix(s: string, w: string, n: nat)
    ensures IsAt(s, Placeholder(w), 0) && 1 <= n <= |w| + 1 ==> s[1..n] == w[..n - 1]
  {
    var q := Placeholder(w);
    if IsAt(s, q, 0) && 1 <= n <= |w| + 1 {
      assert s[0..|q|] == q;
      assert s[1..n] == s[0..|q|][1..n];
      assert q[1..n] == w[..n - 1];
    }
  }

  /** When `x` leaves no '[' open, no placeholder occurrence straddles the
      boundary of `x + y`, so the counts add up. */
  lemma {:induction false} CountSplit(x: string, y: string, w: string)
    requires BracketFree(w) && !Open(x, false)
    ensures CountOcc(x + y, Placeholder(w)) == CountOcc(x, Placeholder(w)) + CountOcc(y, Placeholder(w))
    decreases |x|
  {
    var q := Placeholder(w);
    if x == [] {
      assert x + y == y;
    } else {
      assert (x + y)[1..] == x[1..] + y;
      if |q| <= |x| {
        assert (x + y)[..|q|] == x[..|q|];
      }
      if x[0] == '[' {
        // an occurrence running past the end of x would make x[1..] part
        // of the bracket-free key, leaving the '[' at x[0] open
        OpenAfterBracketFree(x[1..]);
        if |x| < |q| {
          SliceBracketFree(w, |x| - 1);
          PlaceholderPrefix(x + y, w, |x|);
          assert (x + y)[1..|x|] == x[1..];
        }
        ClosedFromOpen(x[1..]);
      } else {
        if |q| <= |x + y| {
          assert (x + y)[..|q|][0] == x[0];
        }
      }
      CountSplit(x[1..], y, w);
    }
  }

  /** A placeholder `[k]` at the front of a text counts once for `[w]`
      exactly when `k == w`. */
  lemma PlaceholderPrefixCount(k: string, w: string, b: string)
    requires BracketFree(k) && BracketFree(w)
    ensures CountOcc(Placeholder(k) + b, Placeholder(w)) == (if k == w then 1 else 0) + CountOcc(b, Placeholder(w))
  {
    var p, q := Placeholder(k), Placeholder(w);
    assert (p + b)[1..] == p[1..] + b;
    assert p[1..] == k + "]";
    assert forall c :: c in k + "]" ==> c in k || c == ']';
    CountAfterOpenFree(p[1..], b, q);
    // the first ']' after the front of p + b and of q sit at the same index
    assert forall i :: 0 <= i < |k| ==> k[i] != ']';
    assert forall i :: 0 <= i < |w| ==> w[i] != ']';
    assert forall i :: 1 <= i < |q| - 1 ==> q[i] == w[i - 1];
    assert forall i :: 1 <= i < |p| - 1 ==> (p + b)[i] == k[i - 1];
    assert (p + b)[|p| - 1] == ']' && q[|q| - 1] == ']';
    if IsAt(p + b, q, 0) {
      assert |q| == |p|;
      assert p == (p + b)[..|q|] == q;
      assert k == p[1..|p| - 1] == q[1..|q| - 1] == w;
    }
  }

  /** Replacing the first `[k]` of a well-nested template by a phrase
      without brackets removes exactly one `[k]`, leaves the count of
      every other placeholder unchanged, and keeps the template
      well-nested: a replacement neither destroys nor creates a
      placeholder. */
  lemma ReplaceFirstCounts(s: string, k: string, phrase: string, w: string)
    requires WellNested(s) && BracketFree(k) && BracketFree(phrase) && BracketFree(w)
    requires Contains(s, Placeholder(k))
    ensures WellNested(ReplaceFirst(s, Placeholder(k), phrase))
    ensures CountOcc(ReplaceFirst(s, Placeholder(k), phrase), Placeholder(w))
            == CountOcc(s, Placeholder(w)) - (if k == w then 1 else 0)
  {
    var p := Placeholder(k);
    var i := IndexOf(s, p, 0).value;
    var a, b := s[..i], s[i + |p|..];
    assert s == a + (p + b);
    var t := a + (phrase + b);
    assert ReplaceFirst(s, p, phrase) == t;
    FlatConcat(a, p + b, false);
    var o := Open(a, false);
    FlatConcat(p, b, o);
    PlaceholderState(k, o);
    assert !o;
    BracketFreeState(phrase, false);
    FlatConcat(phrase, b, false);
    FlatConcat(a, phrase + b, false);
    CountSplit(a, p + b, w);
    PlaceholderPrefixCount(k, w, b);
    CountSplit(a, phrase + b, w);
    CountAfterOpenFree(phrase, b, Placeholder(w));
  }

  /** The same, for the replaced placeholder and every other one at once. */
  lemma ReplaceFirstAllCounts(s: string, k: string, phrase: string)
    requires WellNested(s) && BracketFree(k) && BracketFree(phrase)
    requires Contains(s, Placeholder(k))
    ensures WellNested(ReplaceFirst(s, Placeholder(k), phrase))
    ensures CountOcc(ReplaceFirst(s, Placeholder(k), phrase), Placeholder(k)) == CountOcc(s, Placeholder(k)) - 1
    ensures forall w :: BracketFree(w) && w != k ==>
              CountOcc(ReplaceFirst(s, Placeholder(k), phrase), Placeholder(w)) == CountOcc(s, Placeholder(w))
  {
    ReplaceFirstCounts(s, k, phrase, k);
    forall w | BracketFree(w) && w != k
      ensures CountOcc(ReplaceFirst(s, Placeholder(k), phrase), Placeholder(w)) == CountOcc(s, Placeholder(w))
    {
      ReplaceFirstCounts(s, k, phrase, w);
    }
  }
}
