/**
 * Plain-string searching and rewriting, as JavaScript's `String.prototype`
 * does it for a non-empty search string: `includes`, `indexOf`, and `replace`
 * with a global pattern (every leftmost, non-overlapping occurrence).
 */
module Strings {
  import opened Wrappers

  /** `p` is a prefix of `s`. */
  predicate StartsWith(s: string, p: string)
    ensures StartsWith(s, p) ==> |p| <= |s|
  {
    p == [] || (s != [] && s[0] == p[0] && StartsWith(s[1..], p[1..]))
  }

  /** `a` and `p` agree on their common length: one is a prefix of the other. */
  predicate Compatible(a: string, p: string)
  {
    a == [] || p == [] || (a[0] == p[0] && Compatible(a[1..], p[1..]))
  }

  /** No position of `a` can begin an occurrence of `p`, whatever text follows `a`. */
  predicate MatchFree(a: string, p: string)
  {
    a == [] || (!Compatible(a, p) && MatchFree(a[1..], p))
  }

  /**
   * Scanning `a` for `p` from the left, as `ReplaceAll` does, never reads past
   * the end of `a`: every attempt either matches inside `a` or fails inside `a`.
   */
  predicate SplitSafe(a: string, p: string)
    requires p != []
    decreases |a|
  {
    if a == [] then true
    else if StartsWith(a, p) then SplitSafe(a[|p|..], p)
    else !Compatible(a, p) && SplitSafe(a[1..], p)
  }

  /** `s.replace(/pat/g, rep)` for a pattern without special characters. */
  function ReplaceAll(s: string, pat: string, rep: string): (r: string)
    requires pat != []
    ensures forall c :: c in r ==> c in s || c in rep
    decreases |s|
  {
    if s == [] then []
    else if StartsWith(s, pat) then rep + ReplaceAll(s[|pat|..], pat, rep)
    else [s[0]] + ReplaceAll(s[1..], pat, rep)
  }

  /** The number of occurrences of `c` in `s`. */
  function Count(c: char, s: string): (n: nat)
    ensures n <= |s|

  {
    if s == [] then 0 else (if s[0] == c then 1 else 0) + Count(c, s[1..])
  }

  /** `s.indexOf(p)`: the leftmost position at which `p` occurs in `s`. */
  function IndexOf(s: string, p: string): (r: Option<nat>)
    ensures r.Some? ==> r.value + |p| <= |s| && StartsWith(s[r.value..], p)
    ensures r.Some? ==> forall k :: 0 <= k < r.value ==> !StartsWith(s[k..], p)
    ensures r.None? ==> forall k :: 0 <= k <= |s| ==> !StartsWith(s[k..], p)
    decreases |s|
  {
    if StartsWith(s, p) then Some(0)
    else if s == [] then None
    else
      assert forall k :: 1 <= k <= |s| ==> s[k..] == s[1..][k - 1..];
      match IndexOf(s[1..], p)
      case None => None
      case Some(k) => Some(k + 1)
  }

  /** `s.includes(p)`: found by `indexOf` exactly when `p` starts at some position of `s`. */
  predicate Contains(s: string, p: string)
    ensures Contains(s, p) <==> exists k :: 0 <= k <= |s| && StartsWith(s[k..], p)
  {
    IndexOf(s, p).Some?
  }

  // ---------------------------------------------------------------------------
  // Facts about prefixes

  lemma {:induction false} StartsWithSlice(s: string, p: string)
    ensures StartsWith(s, p) <==> |p| <= |s| && s[..|p|] == p
    decreases |p|
  {
    if p != [] && s != [] {
      StartsWithSlice(s[1..], p[1..]);
      if |p| <= |s| {
        assert s[..|p|] == [s[0]] + s[1..][..|p| - 1];
        assert p == [p[0]] + p[1..];
      }
    }
  }

  lemma {:induction false} StartsWithAppend(a: string, b: string, p: string)
    requires StartsWith(a, p)
    ensures StartsWith(a + b, p)
    decreases |p|
  {
    if p != [] {
      assert (a + b)[1..] == a[1..] + b;
      StartsWithAppend(a[1..], b, p[1..]);
    }
  }

  lemma {:induction false} StartsWithCompatible(a: string, b: string, p: string)
    requires StartsWith(a + b, p)
    ensures Compatible(a, p)
    decreases |a|
  {
    if a != [] && p != [] {
      assert (a + b)[1..] == a[1..] + b;
      StartsWithCompatible(a[1..], b, p[1..]);
    }
  }

  lemma {:induction false} StartsWithItself(p: string)
    ensures StartsWith(p, p)
    decreases |p|
  {
    if p != [] { StartsWithItself(p[1..]); }
  }

  /** A string without the first character of `p` cannot start an occurrence of `p`. */
  lemma {:induction false} MatchFreeByFirstChar(a: string, p: string)
    requires p != []
    requires forall k :: 0 <= k < |a| ==> a[k] != p[0]
    ensures MatchFree(a, p)
    decreases |a|
  {
    if a != [] { MatchFreeByFirstChar(a[1..], p); }
  }

  lemma {:induction false} CompatibleIndex(a: string, p: string, j: nat)
    requires Compatible(a, p) && j < |a| && j < |p|
    ensures a[j] == p[j]
  {
    if j > 0 { CompatibleIndex(a[1..], p[1..], j - 1); }
  }

  /** `MatchFree` holds when no single position of `a` starts something compatible with `p`. */
  lemma {:induction false} MatchFreeAll(a: string, p: string)
    requires forall k :: 0 <= k < |a| ==> !Compatible(a[k..], p)
    ensures MatchFree(a, p)
    decreases |a|
  {
    if a != [] {
      assert a[0..] == a;
      assert forall k :: 0 <= k < |a[1..]| ==> a[1..][k..] == a[k + 1..];
      MatchFreeAll(a[1..], p);
    }
  }

  /**
   * `a` holds the first character of `p` only at position `h`, and the text
   * from `h` on differs from `p` at offset `m`: `a` cannot start an occurrence.
   */
  lemma MatchFreeOneHit(a: string, p: string, h: nat, m: nat)
    requires p != [] && h + m < |a| && m < |p|
    requires forall k :: 0 <= k < |a| && k != h ==> a[k] != p[0]
    requires a[h + m] != p[m]
    ensures MatchFree(a, p)
  {
    forall k | 0 <= k < |a|
      ensures !Compatible(a[k..], p)
    {
      if Compatible(a[k..], p) {
        if k == h {
          CompatibleIndex(a[k..], p, m);
        } else {
          CompatibleIndex(a[k..], p, 0);
        }
      }
    }
    MatchFreeAll(a, p);
  }

  // ---------------------------------------------------------------------------
  // Facts about ReplaceAll

  /** A string that cannot start an occurrence is left alone and is split-safe. */
  lemma {:induction false} ReplaceAllMatchFree(a: string, p: string, r: string)
    requires p != [] && MatchFree(a, p)
    ensures ReplaceAll(a, p, r) == a
    ensures SplitSafe(a, p)
    decreases |a|
  {
    if a != [] {
      if StartsWith(a, p) {
        assert a == a + [];
        StartsWithCompatible(a, [], p);
      }
      ReplaceAllMatchFree(a[1..], p, r);
    }
  }

  /** The pattern itself is replaced by exactly one copy of the replacement. */
  lemma ReplaceAllItself(p: string, r: string)
    requires p != []
    ensures ReplaceAll(p, p, r) == r
    ensures SplitSafe(p, p)
  {
    StartsWithItself(p);
    assert p[|p|..] == [];
  }

  /** Replacing in `a + b` is replacing in each part, when no occurrence straddles the seam. */
  lemma {:induction false} ReplaceAllConcat(a: string, b: string, p: string, r: string)
    requires p != [] && SplitSafe(a, p)
    ensures ReplaceAll(a + b, p, r) == ReplaceAll(a, p, r) + ReplaceAll(b, p, r)
    decreases |a|
  {
    if a == [] {
      assert a + b == b;
    } else if StartsWith(a, p) {
      StartsWithAppend(a, b, p);
      assert (a + b)[|p|..] == a[|p|..] + b;
      ReplaceAllConcat(a[|p|..], b, p, r);
    } else {
      if StartsWith(a + b, p) { StartsWithCompatible(a, b, p); }
      assert (a + b)[1..] == a[1..] + b;
      ReplaceAllConcat(a[1..], b, p, r);
    }
  }

  /**
   * `a` followed by a text that begins with `x` agrees with `p` on their
   * common length: `a + [x]` could be the start of an occurrence of `p`.
   */
  predicate CompatibleNext(a: string, x: char, p: string)
  {
    p == [] || (if a == [] then p[0] == x else a[0] == p[0] && CompatibleNext(a[1..], x, p[1..]))
  }

  /** No position of `a` starts an occurrence of `p` in `a` followed by a text beginning with `x`. */
  predicate Unstraddled(a: string, x: char, p: string)
  {
    a == [] || (!CompatibleNext(a, x, p) && Unstraddled(a[1..], x, p))
  }

  /** Compatibility pins down each position of the pattern, up to and including the next character. */
  lemma {:induction false} CompatibleNextIndex(a: string, x: char, p: string, j: nat)
    requires j <= |a| && j < |p|
    ensures CompatibleNext(a, x, p) && j < |a| ==> a[j] == p[j]
    ensures CompatibleNext(a, x, p) && j == |a| ==> x == p[j]
    decreases j
  {
    if j > 0 { CompatibleNextIndex(a[1..], x, p[1..], j - 1); }
  }

  /** `Unstraddled` holds when no single position of `a` starts something compatible with `p`. */
  lemma {:induction false} UnstraddledAll(a: string, x: char, p: string)
    requires forall k :: 0 <= k < |a| ==> !CompatibleNext(a[k..], x, p)
    ensures Unstraddled(a, x, p)
    decreases |a|
  {
    if a != [] {
      assert a[0..] == a;
      assert forall k :: 0 <= k < |a[1..]| ==> a[1..][k..] == a[k + 1..];
      UnstraddledAll(a[1..], x, p);
    }
  }

  /** An occurrence of `p` at the start of `a + b` makes `a + [b[0]]` compatible with `p`. */
  lemma {:induction false} StartsWithNext(a: string, x: char, b: string, p: string)
    requires StartsWith(a + b, p) && (b == [] || b[0] == x)
    ensures CompatibleNext(a, x, p)
    decreases |a|
  {
    if a != [] && p != [] {
      assert (a + b)[0] == a[0] && (a + b)[1..] == a[1..] + b;
      StartsWithNext(a[1..], x, b, p[1..]);
    } else if a == [] && p != [] {
      assert a + b == b;
    }
  }

  /**
   * Replacing in `a + b` leaves `a` as it is and replaces in `b`, when `b`
   * begins with a character that completes no occurrence from within `a`.
   */
  lemma {:induction false} ReplaceAllBefore(a: string, x: char, b: string, p: string, r: string)
    requires p != [] && Unstraddled(a, x, p) && (b == [] || b[0] == x)
    ensures ReplaceAll(a + b, p, r) == a + ReplaceAll(b, p, r)
    decreases |a|
  {
    if a == [] {
      assert a + b == b;
    } else {
      if StartsWith(a + b, p) { StartsWithNext(a, x, b, p); }
      assert (a + b)[1..] == a[1..] + b;
      ReplaceAllBefore(a[1..], x, b, p, r);
      assert [a[0]] + (a[1..] + ReplaceAll(b, p, r)) == a + ReplaceAll(b, p, r);
    }
  }

  /** The first character of a replaced text is the original first character or the replacement's. */
  lemma ReplaceAllHead(s: string, p: string, r: string)
    requires p != [] && r != []
    ensures s == [] ==> ReplaceAll(s, p, r) == []
    ensures s != [] ==> ReplaceAll(s, p, r) != [] && ReplaceAll(s, p, r)[0] in {s[0], r[0]}
  {
  }

  /** A one-character pattern is removed completely when the replacement does not contain it. */
  lemma {:induction false} ReplaceAllRemovesChar(s: string, x: char, r: string)
    requires x !in r
    ensures x !in ReplaceAll(s, [x], r)
    decreases |s|
  {
    if s != [] {
      assert s[0] == x ==> StartsWith(s, [x]);
      ReplaceAllRemovesChar(s[1..], x, r);
    }
  }

  lemma {:induction false} CountAppend(c: char, a: string, b: string)
    ensures Count(c, a + b) == Count(c, a) + Count(c, b)
    decreases |a|
  {
    if a == [] {
      assert a + b == b;
    } else {
      assert (a + b)[0] == a[0] && (a + b)[1..] == a[1..] + b;
      CountAppend(c, a[1..], b);
    }
  }

  lemma {:induction false} CountAbsent(c: char, s: string)
    requires c !in s
    ensures Count(c, s) == 0
    decreases |s|
  {
    if s != [] { CountAbsent(c, s[1..]); }
  }

  /** A character that neither the pattern nor the replacement contains keeps its number of occurrences. */
  lemma {:induction false} CountReplaceOther(x: char, s: string, p: string, r: string)
    requires p != [] && x !in p && x !in r
    ensures Count(x, ReplaceAll(s, p, r)) == Count(x, s)
    decreases |s|
  {
    if s != [] {
      if StartsWith(s, p) {
        StartsWithSlice(s, p);
        assert s == p + s[|p|..];
        CountAppend(x, p, s[|p|..]);
        CountAppend(x, r, ReplaceAll(s[|p|..], p, r));
        CountAbsent(x, p);
        CountAbsent(x, r);
        CountReplaceOther(x, s[|p|..], p, r);
      } else {
        CountAppend(x, [s[0]], ReplaceAll(s[1..], p, r));
        CountReplaceOther(x, s[1..], p, r);
      }
    }
  }

  /**
   * Replacing the one-character pattern `c` by `r`: every `c` contributes the
   * occurrences of another character `x` that `r` holds.
   */
  lemma {:induction false} CountReplaceChar(x: char, s: string, c: char, r: string)
    requires x != c
    ensures Count(x, ReplaceAll(s, [c], r)) == Count(x, s) + Count(c, s) * Count(x, r)
    decreases |s|
  {
    if s != [] {
      CountReplaceChar(x, s[1..], c, r);
      var rest := ReplaceAll(s[1..], [c], r);
      var k, n, before, after := Count(x, r), Count(c, s[1..]), Count(x, s[1..]), Count(x, rest);
      assert after == before + n * k;
      if s[0] == c {
        assert StartsWith(s, [c]);
        assert ReplaceAll(s, [c], r) == r + rest;
        CountAppend(x, r, rest);
        MulSucc(n, k);
      } else {
        assert !StartsWith(s, [c]);
        assert ReplaceAll(s, [c], r) == [s[0]] + rest;
        CountAppend(x, [s[0]], rest);
      }
    }
  }

  /** `CountReplaceChar` with the count in the replacement given as a number, so that callers stay linear. */
  lemma CountReplaceCharBy(x: char, s: string, c: char, r: string, k: nat)
    requires x != c && Count(x, r) == k
    ensures Count(x, ReplaceAll(s, [c], r)) == Count(x, s) + Count(c, s) * k
  {
    CountReplaceChar(x, s, c, r);
  }

  lemma MulSucc(n: nat, k: nat)
    ensures (n + 1) * k == n * k + k
  {
  }

  /** A string holding `p` at position `k` contains it. */
  lemma ContainsAt(s: string, p: string, k: nat)
    requires k + |p| <= |s| && s[k..k + |p|] == p
    ensures Contains(s, p)
  {
    assert s[k..][..|p|] == p;
    StartsWithSlice(s[k..], p);
  }

  lemma ContainsMiddle(a: string, p: string, b: string)
    ensures Contains(a + p + b, p)
  {
    assert (a + p + b)[|a|..|a| + |p|] == p;
    ContainsAt(a + p + b, p, |a|);
  }

  /** `s.indexOf(c)` for a single character: the first position holding `c`. */
  function FindChar(s: string, c: char): (r: Option<nat>)
    ensures r.Some? ==> r.value < |s| && s[r.value] == c && forall j :: 0 <= j < r.value ==> s[j] != c
    ensures r.None? <==> c !in s
    decreases |s|
  {
    if s == [] then None
    else if s[0] == c then Some(0)
    else
      match FindChar(s[1..], c)
      case None => None
      case Some(k) =>
        assert forall j :: 1 <= j <= k ==> s[j] == s[1..][j - 1];
        Some(k + 1)
  }

  /** The first occurrence of `p` in `s` is at `i` when `p` is written there and nowhere before. */
  lemma IndexOfAt(s: string, p: string, i: nat)
    requires i + |p| <= |s| && s[i..i + |p|] == p
    requires forall k :: 0 <= k < i ==> !StartsWith(s[k..], p)
    ensures IndexOf(s, p) == Some(i)
  {
    StartsWithSlice(s[i..], p);
    assert s[i..][..|p|] == s[i..i + |p|];
  }

  /** No occurrence of `p` starts at a character other than `p`'s first. */
  lemma NotStartsAt(s: string, p: string, k: nat)
    requires p != [] && k < |s| && s[k] != p[0]
    ensures !StartsWith(s[k..], p)
  {
    assert s[k..][0] == s[k];
  }
}
