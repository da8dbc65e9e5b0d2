/** A model of Go's `strings.TrimSpace`, the only library routine the
    repository-pair rules depend on.

    `strings.TrimSpace` removes every leading and trailing character for
    which `unicode.IsSpace` holds. The set of such characters is written out
    in `IsSpace`; it is taken to be Go's set (the ASCII spaces, NEL, NBSP and
    the Unicode White_Space characters above U+00FF). The results below hold
    for any choice of that set.
 */
module Strings {

  /** Go's `unicode.IsSpace`. */
  predicate IsSpace(c: char) {
    || c == '\t' || c == '\n' || c == '\U{000B}' || c == '\U{000C}' || c == '\r' || c == ' '
    || c == '\U{0085}' || c == '\U{00A0}' || c == '\U{1680}'
    || ('\U{2000}' <= c <= '\U{200A}')
    || c == '\U{2028}' || c == '\U{2029}' || c == '\U{202F}' || c == '\U{205F}' || c == '\U{3000}'
  }

  /** Every character of `s` is white space (vacuously true of ""). */
  predicate AllSpace(s: string) {
    forall i :: 0 <= i < |s| ==> IsSpace(s[i])
  }

  /** `s` neither begins nor ends with white space. */
  predicate Trimmed(s: string) {
    s == [] || (!IsSpace(s[0]) && !IsSpace(s[|s| - 1]))
  }

  /** Drops the trailing white space: the result is the prefix of `s` that
      ends at its last non-space character. */
  function TrimRight(s: string): (r: string)
    ensures |r| <= |s| && r == s[..|r|]
    ensures AllSpace(s[|r|..])
    ensures r == [] || !IsSpace(r[|r| - 1])
  {
    if s != [] && IsSpace(s[|s| - 1]) then TrimRight(s[..|s| - 1]) else s
  }

  /** The number of white-space characters `s` begins with. */
  function LeadingSpace(s: string): (n: nat)
    ensures n <= |s| && AllSpace(s[..n])
    ensures n == |s| || !IsSpace(s[n])
  {
    if s != [] && IsSpace(s[0]) then
      var n := 1 + LeadingSpace(s[1..]);
      assert forall i :: 1 <= i < n ==> s[..n][i] == s[1..][..n - 1][i - 1];
      n
    else 0
  }

  /** Go's `strings.TrimSpace`: the slice of `s` that starts after its
      leading white space, is followed only by white space, and neither
      begins nor ends with white space itself. */
  function TrimSpace(s: string): (r: string)
    ensures LeadingSpace(s) + |r| <= |s|
    ensures r == s[LeadingSpace(s)..LeadingSpace(s) + |r|]
    ensures AllSpace(s[LeadingSpace(s) + |r|..])
    ensures Trimmed(r)
  {
    var lo := LeadingSpace(s);
    var r := TrimRight(s[lo..]);
    assert s[lo + |r|..] == s[lo..][|r|..];
    assert r == [] || r[0] == s[lo];
    r
  }

  /** Trailing white space never changes what TrimRight keeps. */
  lemma {:induction false} TrimRightAppendSpace(s: string, q: string)
    requires AllSpace(q)
    ensures TrimRight(s + q) == TrimRight(s)
  {
    if q != [] {
      var q' := q[..|q| - 1];
      assert (s + q)[|s + q| - 1] == q[|q| - 1];
      assert (s + q)[..|s + q| - 1] == s + q';
      assert AllSpace(q') by {
        forall i | 0 <= i < |q'| ensures IsSpace(q'[i]) { assert q'[i] == q[i]; }
      }
      TrimRightAppendSpace(s, q');
    } else {
      assert s + q == s;
    }
  }

  /** Leading white space adds to the count of what follows. */
  lemma {:induction false} LeadingSpacePrepend(p: string, s: string)
    requires AllSpace(p)
    ensures LeadingSpace(p + s) == |p| + LeadingSpace(s)
  {
    if p != [] {
      var p' := p[1..];
      assert (p + s)[0] == p[0];
      assert (p + s)[1..] == p' + s;
      assert AllSpace(p') by {
        forall i | 0 <= i < |p'| ensures IsSpace(p'[i]) { assert p'[i] == p[i + 1]; }
      }
      LeadingSpacePrepend(p', s);
    } else {
      assert p + s == s;
    }
  }

  /** Once a non-space character has been reached, what follows it does
      not change the count. */
  lemma {:induction false} LeadingSpaceAppend(s: string, q: string)
    requires !AllSpace(s)
    ensures LeadingSpace(s + q) == LeadingSpace(s)
  {
    assert s != [];
    assert (s + q)[0] == s[0];
    if IsSpace(s[0]) {
      var s' := s[1..];
      assert (s + q)[1..] == s' + q;
      assert !AllSpace(s') by {
        var i :| 0 <= i < |s| && !IsSpace(s[i]);
        assert s'[i - 1] == s[i];
      }
      LeadingSpaceAppend(s', q);
    }
  }

  /** A string with nothing to trim is its own trim. */
  lemma TrimSpaceOfTrimmed(s: string)
    requires Trimmed(s)
    ensures TrimSpace(s) == s
  {
  }

  /** Trimming is idempotent. */
  lemma TrimSpaceIdempotent(s: string)
    ensures TrimSpace(TrimSpace(s)) == TrimSpace(s)
  {
    TrimSpaceOfTrimmed(TrimSpace(s));
  }

  /** A string trims to "" exactly when it is empty or all white space. */
  lemma TrimSpaceEmptyIff(s: string)
    ensures TrimSpace(s) == "" <==> AllSpace(s)
  {
    var lo, hi := LeadingSpace(s), LeadingSpace(s) + |TrimSpace(s)|;
    if lo == hi {
      forall i | 0 <= i < |s| ensures IsSpace(s[i]) {
        assert s[i] == s[..lo][i];
      }
    } else {
      assert s[lo..hi][0] == s[lo];
    }
  }

  /** Leading and trailing padding made of white space never changes the
      trimmed value. */
  lemma TrimSpaceUnpads(p: string, s: string, q: string)
    requires AllSpace(p) && AllSpace(q)
    ensures TrimSpace(p + s + q) == TrimSpace(s)
  {
    var t := p + s + q;
    assert t == p + (s + q);
    LeadingSpacePrepend(p, s + q);
    if AllSpace(s) {
      LeadingSpacePrepend(s, q);
      assert LeadingSpace(q) == |q|;
      assert t[LeadingSpace(t)..] == [];
      TrimSpaceEmptyIff(s);
    } else {
      LeadingSpaceAppend(s, q);
      var n := LeadingSpace(s);
      assert t[LeadingSpace(t)..] == s[n..] + q;
      TrimRightAppendSpace(s[n..], q);
    }
  }
}
