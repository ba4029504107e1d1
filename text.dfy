/** Ruby's `String#include?` and `String#gsub(t, '')`, the two string operations
    the sprite-name logic is built from, with the facts about them that the
    round-trip proofs need. */
module Text {

  /** `s.start_with?(p)` */
  predicate StartsWith(s: string, p: string)
  {
    |p| <= |s| && s[..|p|] == p
  }

  /** `s.end_with?(p)` */
  predicate EndsWith(s: string, p: string)
  {
    |p| <= |s| && s[|s| - |p|..] == p
  }

  /** `s.include?(t)`: t starts at some position of s, tried from the left. */
  predicate Contains(s: string, t: string)
    decreases |s|
  {
    StartsWith(s, t) || (|s| > 0 && Contains(s[1..], t))
  }

  /** t is found in s starting at position i. */
  predicate OccursAt(s: string, t: string, i: int)
  {
    0 <= i && i + |t| <= |s| && s[i..i + |t|] == t
  }

  /** `s.gsub(t, '')`: scanning from the left, every occurrence of t is cut out
      and the scan resumes just after it (occurrences do not overlap). */
  function Gsub(s: string, t: string): (r: string)
    requires |t| > 0
    ensures |r| <= |s|
    ensures |r| == |s| ==> r == s
    decreases |s|
  {
    if |s| < |t| then s
    else if StartsWith(s, t) then Gsub(s[|t|..], t)
    else [s[0]] + Gsub(s[1..], t)
  }

  /** The first k characters of b finish a copy of t whose first |t| - k
      characters stand just before b: an occurrence of t straddling a + b. */
  predicate Completes(b: string, t: string, k: int)
  {
    0 < k < |t| && k <= |b| && b[..k] == t[|t| - k..]
  }

  /** No proper prefix of t is also a suffix of t, so two copies of t never overlap. */
  predicate Unbordered(t: string)
  {
    forall k :: 0 < k < |t| ==> !Completes(t, t, k)
  }

  /** The recursive `Contains` agrees with the positional definition. */
  lemma {:induction false} ContainsIffOccurs(s: string, t: string)
    ensures Contains(s, t) <==> exists i :: OccursAt(s, t, i)
    decreases |s|
  {
    if StartsWith(s, t) {
      assert OccursAt(s, t, 0);
    } else if |s| > 0 {
      ContainsIffOccurs(s[1..], t);
      if i :| OccursAt(s[1..], t, i) {
        assert s[1..][i..i + |t|] == s[i + 1..i + 1 + |t|];
        assert OccursAt(s, t, i + 1);
      }
      if i :| OccursAt(s, t, i) {
        assert i != 0;
        assert s[1..][i - 1..i - 1 + |t|] == s[i..i + |t|];
        assert OccursAt(s[1..], t, i - 1);
      }
    } else {
      assert forall i :: !OccursAt(s, t, i);
    }
  }

  lemma {:induction false} ContainsLength(s: string, t: string)
    requires Contains(s, t)
    ensures |t| <= |s|
    decreases |s|
  {
    if !StartsWith(s, t) {
      ContainsLength(s[1..], t);
    }
  }

  /** An occurrence in the right part is an occurrence in the whole. */
  lemma {:induction false} ContainsInRight(a: string, b: string, t: string)
    requires Contains(b, t)
    ensures Contains(a + b, t)
    decreases |a|
  {
    if a == [] {
      assert a + b == b;
    } else {
      assert (a + b)[1..] == a[1..] + b;
      ContainsInRight(a[1..], b, t);
    }
  }

  /** An occurrence in the left part is an occurrence in the whole. */
  lemma {:induction false} ContainsInLeft(a: string, b: string, t: string)
    requires Contains(a, t)
    ensures Contains(a + b, t)
    decreases |a|
  {
    if StartsWith(a, t) {
      assert (a + b)[..|t|] == a[..|t|];
    } else {
      assert (a + b)[1..] == a[1..] + b;
      ContainsInLeft(a[1..], b, t);
    }
  }

  /** Whatever contains u contains every substring of u. */
  lemma ContainsTransitive(s: string, u: string, t: string)
    requires Contains(s, u) && Contains(u, t)
    ensures Contains(s, t)
  {
    ContainsIffOccurs(s, u);
    ContainsIffOccurs(u, t);
    var i :| OccursAt(s, u, i);
    var j :| OccursAt(u, t, j);
    assert s[i..i + |u|] == u;
    forall m | 0 <= m < |t|
      ensures s[i + j + m] == t[m]
    {
      assert u[j..j + |t|][m] == u[j + m];
    }
    assert s[i + j..i + j + |t|] == t;
    assert OccursAt(s, t, i + j);
    ContainsIffOccurs(s, t);
  }

  /** t is absent from a + b when it is absent from each part and no copy of t
      can straddle the join. */
  lemma {:induction false} NotContainsConcat(a: string, b: string, t: string)
    requires !Contains(a, t) && !Contains(b, t)
    requires forall k :: Completes(b, t, k) ==> !EndsWith(a, t[..|t| - k])
    ensures !Contains(a + b, t)
    decreases |a|
  {
    if a == [] {
      assert a + b == b;
    } else {
      if StartsWith(a + b, t) {
        if |a| < |t| {
          var k := |t| - |a|;
          assert (a + b)[..|t|] == a + b[..k];
          assert t[..|a|] == a && t[|a|..] == b[..k];
          assert Completes(b, t, k);
        }
        assert false;
      }
      NotContainsConcat(a[1..], b, t);
      assert (a + b)[1..] == a[1..] + b;
    }
  }

  /** Cutting t out of a string without t leaves it alone. */
  lemma {:induction false} GsubAbsent(s: string, t: string)
    requires |t| > 0 && !Contains(s, t)
    ensures Gsub(s, t) == s
    decreases |s|
  {
    if |s| >= |t| {
      GsubAbsent(s[1..], t);
    }
  }

  /** Appending an unbordered t to a string without t and then cutting every t
      out gives the string back. */
  lemma {:induction false} GsubAppended(a: string, t: string)
    requires |t| > 0 && Unbordered(t) && !Contains(a, t)
    ensures Gsub(a + t, t) == a
    decreases |a|
  {
    if a == [] {
      assert a + t == t && t[|t|..] == [];
    } else {
      if StartsWith(a + t, t) {
        if |a| < |t| {
          var k := |t| - |a|;
          assert (a + t)[..|t|] == a + t[..k];
          assert t[|a|..] == t[..k];
          assert Completes(t, t, k);
        }
        assert false;
      }
      assert (a + t)[1..] == a[1..] + t;
      GsubAppended(a[1..], t);
    }
  }

  /** A convenient way to rule out every straddling copy: the first character
      of b appears in t only at position m (if at all), and t's completion from
      there is ruled out separately. */
  lemma CompletesOnlyAt(b: string, t: string, m: int)
    requires |b| > 0
    requires forall j :: 0 < j < |t| && j != m ==> t[j] != b[0]
    ensures forall k :: Completes(b, t, k) ==> k == |t| - m
  {
    forall k | Completes(b, t, k)
      ensures k == |t| - m
    {
      assert b[..k][0] == t[|t| - k..][0];
    }
  }

  /** A way to show t is absent from s: s does not start with t, and t's
      first character appears in s after position 0 only at m, where t does
      not fit. */
  lemma NotContainsByAnchor(s: string, t: string, m: int)
    requires |t| > 0 && !StartsWith(s, t)
    requires forall i :: 0 < i < |s| && i != m ==> s[i] != t[0]
    requires m + |t| > |s|
    ensures !Contains(s, t)
  {
    ContainsIffOccurs(s, t);
  }

  /** A string lacking one of t's characters does not contain t. */
  lemma NotContainsMissingChar(s: string, t: string, j: int)
    requires 0 <= j < |t|
    requires forall i :: 0 <= i < |s| ==> s[i] != t[j]
    ensures !Contains(s, t)
  {
    ContainsIffOccurs(s, t);
  }

  /** Where no copy of t starts inside p, `gsub` keeps p and works on the rest. */
  lemma {:induction false} GsubKeepsPrefix(p: string, r: string, t: string)
    requires |t| > 0
    requires forall i :: 0 <= i < |p| ==> !StartsWith((p + r)[i..], t)
    ensures Gsub(p + r, t) == p + Gsub(r, t)
    decreases |p|
  {
    if p == [] {
      assert p + r == r;
    } else {
      var s := p + r;
      assert s[1..] == p[1..] + r;
      forall i | 0 <= i < |p[1..]|
        ensures !StartsWith((p[1..] + r)[i..], t)
      {
        assert (p[1..] + r)[i..] == s[i + 1..];
      }
      GsubKeepsPrefix(p[1..], r, t);
      if |s| < |t| {
        GsubAbsentShort(r, t);
      } else {
        assert s[0..] == s;
        assert !StartsWith(s, t);
        assert Gsub(s, t) == [s[0]] + Gsub(s[1..], t);
        assert [p[0]] + p[1..] == p;
      }
    }
  }

  lemma GsubAbsentShort(s: string, t: string)
    requires 0 < |t| && |s| < |t|
    ensures Gsub(s, t) == s
  {
  }
}
