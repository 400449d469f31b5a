/** Python's `str.strip()` with no argument, as applied to every column name
    (`df.columns.str.strip()`), and Python's ordering of strings, which
    `LabelEncoder` uses to order its classes. */
module Text {

  /** The characters for which Python's `str.isspace()` holds. */
  predicate IsSpace(c: char) {
    || '\U{0009}' <= c <= '\U{000D}'
    || '\U{001C}' <= c <= '\U{0020}'
    || c == '\U{0085}' || c == '\U{00A0}' || c == '\U{1680}'
    || '\U{2000}' <= c <= '\U{200A}'
    || c == '\U{2028}' || c == '\U{2029}' || c == '\U{202F}'
    || c == '\U{205F}' || c == '\U{3000}'
  }

  /** Every character of `s` at a position from `lo` up to `hi` is
      whitespace. */
  ghost predicate SpaceIn(s: string, lo: int, hi: int) {
    forall i :: lo <= i < hi && 0 <= i < |s| ==> IsSpace(s[i])
  }

  /** Neither end of `s` is whitespace (vacuously true of the empty string). */
  predicate NoEdgeSpace(s: string) {
    |s| == 0 || (!IsSpace(s[0]) && !IsSpace(s[|s| - 1]))
  }

  /** `r` is what remains of `s` after removing the whitespace-only prefix of
      length `a` and a whitespace-only suffix. */
  ghost predicate StrippedAt(s: string, r: string, a: int) {
    && 0 <= a && a + |r| <= |s|
    && r == s[a..a + |r|]
    && SpaceIn(s, 0, a)
    && SpaceIn(s, a + |r|, |s|)
  }

  function StripLeading(s: string): (r: string)
    ensures |r| <= |s| && r == s[|s| - |r|..]
    ensures |r| == 0 || !IsSpace(r[0])
  {
    if |s| > 0 && IsSpace(s[0]) then StripLeading(s[1..]) else s
  }

  /** What `StripLeading` removes is whitespace. */
  lemma {:induction false} LeadingRemovedIsSpace(s: string)
    ensures SpaceIn(s, 0, |s| - |StripLeading(s)|)
  {
    if |s| > 0 && IsSpace(s[0]) {
      var u := s[1..];
      LeadingRemovedIsSpace(u);
      forall i | 1 <= i < |s| - |StripLeading(s)| ensures IsSpace(s[i]) {
        assert s[i] == u[i - 1];
      }
    }
  }

  function StripTrailing(s: string): (r: string)
    ensures |r| <= |s| && r == s[..|r|]
    ensures |r| == 0 || !IsSpace(r[|r| - 1])
  {
    if |s| > 0 && IsSpace(s[|s| - 1]) then StripTrailing(s[..|s| - 1]) else s
  }

  /** What `StripTrailing` removes is whitespace. */
  lemma {:induction false} TrailingRemovedIsSpace(s: string)
    ensures SpaceIn(s, |StripTrailing(s)|, |s|)
  {
    if |s| > 0 && IsSpace(s[|s| - 1]) {
      var t := s[..|s| - 1];
      TrailingRemovedIsSpace(t);
      forall i | |StripTrailing(s)| <= i < |s| - 1 ensures IsSpace(s[i]) {
        assert s[i] == t[i];
      }
    }
  }

  /** `str.strip()`: the longest infix of `s` that neither starts nor ends
      with whitespace, obtained by removing whitespace only. */
  function Strip(s: string): (r: string)
    ensures NoEdgeSpace(r)
    ensures exists a :: StrippedAt(s, r, a)
  {
    StripStages(s);
    StripTrailing(StripLeading(s))
  }

  /** Removing leading and then trailing whitespace removes a whitespace
      prefix and a whitespace suffix. */
  lemma {:induction false} StripStages(s: string)
    ensures StrippedAt(s, StripTrailing(StripLeading(s)), |s| - |StripLeading(s)|)
  {
    var t := StripLeading(s);
    var r := StripTrailing(t);
    var a := |s| - |t|;
    LeadingRemovedIsSpace(s);
    TrailingRemovedIsSpace(t);
    forall i | a + |r| <= i < |s| ensures IsSpace(s[i]) {
      assert s[i] == t[i - a];
    }
    assert SpaceIn(s, a + |r|, |s|);
    assert SpaceIn(s, 0, a);
    assert r == s[a..a + |r|];
    assert StrippedAt(s, r, a);
  }

  lemma {:induction false} StripLeadingAt(s: string, a: nat)
    requires a <= |s| && SpaceIn(s, 0, a)
    requires a == |s| || !IsSpace(s[a])
    ensures StripLeading(s) == s[a..]
  {
    if a > 0 {
      var u := s[1..];
      assert forall i :: 0 <= i < |u| ==> u[i] == s[i + 1];
      StripLeadingAt(u, a - 1);
      assert u[a - 1..] == s[a..];
    }
  }

  lemma {:induction false} StripTrailingAt(s: string, b: nat)
    requires b <= |s| && SpaceIn(s, b, |s|)
    requires b == 0 || !IsSpace(s[b - 1])
    ensures StripTrailing(s) == s[..b]
  {
    if b < |s| {
      var t := s[..|s| - 1];
      assert forall i :: 0 <= i < |t| ==> t[i] == s[i];
      StripTrailingAt(t, b);
      assert t[..b] == s[..b];
    }
  }

  /** A string that has whitespace only around a non-blank core strips to
      that core: the definition above is the only one meeting its contract. */
  lemma {:induction false} StripUnique(s: string, r: string, a: int)
    requires StrippedAt(s, r, a) && NoEdgeSpace(r)
    ensures Strip(s) == r
  {
    if |r| == 0 {
      StripBlank(s, a);
    } else {
      assert s[a] == r[0];
      StripLeadingAt(s, a);
      TrailingOfCore(s, r, a);
    }
  }

  /** Once the whitespace prefix is gone, removing trailing whitespace leaves
      the non-blank core. */
  lemma {:induction false} TrailingOfCore(s: string, r: string, a: int)
    requires StrippedAt(s, r, a) && NoEdgeSpace(r) && |r| > 0
    ensures StripTrailing(s[a..]) == r
  {
    var t := s[a..];
    forall i | |r| <= i < |t| ensures IsSpace(t[i]) {
      assert t[i] == s[a + i];
    }
    assert t[|r| - 1] == r[|r| - 1];
    StripTrailingAt(t, |r|);
    assert t[..|r|] == r;
  }

  lemma {:induction false} StripBlank(s: string, a: int)
    requires 0 <= a <= |s| && SpaceIn(s, 0, a) && SpaceIn(s, a, |s|)
    ensures Strip(s) == []
  {
    StripLeadingAt(s, |s|);
  }

  /** Stripping is idempotent, and leaves a string unchanged exactly when
      neither of its ends is whitespace. */
  lemma {:induction false} StripFixpoint(s: string)
    ensures Strip(Strip(s)) == Strip(s)
    ensures Strip(s) == s <==> NoEdgeSpace(s)
  {
    StripKeeps(Strip(s));
    if NoEdgeSpace(s) {
      StripKeeps(s);
    }
  }

  /** A string with no whitespace at either end strips to itself. */
  lemma {:induction false} StripKeeps(s: string)
    requires NoEdgeSpace(s)
    ensures Strip(s) == s
  {
    assert s[0..|s|] == s;
    StripUnique(s, s, 0);
  }

  /** Python's `<` on strings: lexicographic by code point, a proper prefix
      sorting first. */
  predicate Below(a: string, b: string) {
    if |a| == 0 then |b| > 0
    else if |b| == 0 then false
    else if a[0] != b[0] then a[0] < b[0]
    else Below(a[1..], b[1..])
  }

  lemma {:induction false} BelowIrreflexive(a: string)
    ensures !Below(a, a)
  {
    if |a| > 0 {
      BelowIrreflexive(a[1..]);
    }
  }

  lemma {:induction false} BelowTransitive(a: string, b: string, c: string)
    requires Below(a, b) && Below(b, c)
    ensures Below(a, c)
  {
    if |a| > 0 && |b| > 0 && |c| > 0 && a[0] == b[0] && b[0] == c[0] {
      BelowTransitive(a[1..], b[1..], c[1..]);
    }
  }

  lemma {:induction false} BelowTotal(a: string, b: string)
    requires a != b
    ensures Below(a, b) || Below(b, a)
  {
    if |a| > 0 && |b| > 0 && a[0] == b[0] {
      assert a == [a[0]] + a[1..] && b == [b[0]] + b[1..];
      BelowTotal(a[1..], b[1..]);
    }
  }
}
