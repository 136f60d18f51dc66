/**
 * Turning a user-chosen profile name into a file-system-safe identifier
 * (`save_voice_profile`, first three lines): keep alphanumerics, `_` and
 * `-`; strip `_` and `-` from both ends; fall back to `profile_` plus eight
 * hex digits of a fresh UUID when nothing is left.
 */
module ProfileName {

  /** `str.isalnum`, restricted to ASCII letters and digits. */
  predicate IsAlnum(c: char)
  {
    'a' <= c <= 'z' || 'A' <= c <= 'Z' || '0' <= c <= '9'
  }

  /** The characters `strip("_-")` removes. */
  predicate IsSeparator(c: char)
  {
    c == '_' || c == '-'
  }

  /** The characters the filter lets through. */
  predicate IsKept(c: char)
  {
    IsAlnum(c) || IsSeparator(c)
  }

  predicate IsHexDigit(c: char)
  {
    '0' <= c <= '9' || 'a' <= c <= 'f'
  }

  /** `uuid.uuid4().hex[:8]`: eight lower-case hex digits. */
  predicate IsHexId(h: string)
  {
    |h| == 8 && forall i :: 0 <= i < |h| ==> IsHexDigit(h[i])
  }

  /** The shape every identifier produced here has. */
  predicate IsSafeName(s: string)
  {
    && s != []
    && (forall i :: 0 <= i < |s| ==> IsKept(s[i]))
    && !IsSeparator(s[0])
    && !IsSeparator(s[|s| - 1])
  }

  /** Every character of `s` is a separator (in particular, `s` may be empty). */
  predicate AllSeparators(s: string)
  {
    forall i :: 0 <= i < |s| ==> IsSeparator(s[i])
  }

  const FallbackPrefix: string := "profile_"

  /** `"".join(ch for ch in s if ch.isalnum() or ch in ("_", "-"))` */
  function Filter(s: string): (r: string)
    ensures |r| <= |s|
    ensures forall i :: 0 <= i < |r| ==> IsKept(r[i])
  {
    if s == [] then []
    else if IsKept(s[0]) then [s[0]] + Filter(s[1..])
    else Filter(s[1..])
  }

  /** Leading half of `strip("_-")`: the suffix left after dropping leading separators. */
  function StripLeading(s: string): (r: string)
    ensures |r| <= |s| && r == s[|s| - |r|..]
    ensures forall i :: 0 <= i < |s| - |r| ==> IsSeparator(s[i])
    ensures r != [] ==> !IsSeparator(r[0])
  {
    if s != [] && IsSeparator(s[0]) then StripLeading(s[1..]) else s
  }

  /** Trailing half of `strip("_-")`: the prefix left after dropping trailing separators. */
  function StripTrailing(s: string): (r: string)
    ensures |r| <= |s| && r == s[..|r|]
    ensures forall i :: |r| <= i < |s| ==> IsSeparator(s[i])
    ensures r != [] ==> !IsSeparator(r[|r| - 1])
  {
    if s != [] && IsSeparator(s[|s| - 1]) then StripTrailing(s[..|s| - 1]) else s
  }

  /**
   * `str.strip("_-")`: a slice of `s` with only separators before and after
   * it, that neither starts nor ends with a separator.
   */
  function Strip(s: string): (r: string)
    ensures IsTrimmedSlice(s, r, |s| - |StripLeading(s)|)
    ensures r != [] ==> !IsSeparator(r[0]) && !IsSeparator(r[|r| - 1])
  {
    StripTrims(s);
    StripTrailing(StripLeading(s))
  }

  /** The two halves of `strip("_-")` together leave a trimmed slice without separators at its ends. */
  lemma StripTrims(s: string)
    ensures IsTrimmedSlice(s, StripTrailing(StripLeading(s)), |s| - |StripLeading(s)|)
    ensures var r := StripTrailing(StripLeading(s));
      r != [] ==> !IsSeparator(r[0]) && !IsSeparator(r[|r| - 1])
  {
    var t := StripLeading(s);
    var r := StripTrailing(t);
    TrimmedSlice(s, t, r);
  }

  /** `r` is `s[i..i + |r|]` and everything of `s` outside that slice is a separator. */
  predicate IsTrimmedSlice(s: string, r: string, i: int)
  {
    && 0 <= i <= |s| - |r|
    && r == s[i..i + |r|]
    && (forall k :: 0 <= k < i ==> IsSeparator(s[k]))
    && (forall k :: i + |r| <= k < |s| ==> IsSeparator(s[k]))
  }

  /** Dropping separators from the front and then from the back leaves a trimmed slice. */
  lemma TrimmedSlice(s: string, t: string, r: string)
    requires |t| <= |s| && t == s[|s| - |t|..] && |r| <= |t| && r == t[..|r|]
    requires forall k :: 0 <= k < |s| - |t| ==> IsSeparator(s[k])
    requires forall k :: |r| <= k < |t| ==> IsSeparator(t[k])
    ensures IsTrimmedSlice(s, r, |s| - |t|)
    ensures r != [] ==> r[0] == t[0]
  {
    var i := |s| - |t|;
    forall k | i + |r| <= k < |s| ensures IsSeparator(s[k]) {
      assert s[k] == t[k - i];
    }
  }

  /** The `safe` identifier of `save_voice_profile`, given the UUID's hex digits. */
  function Sanitize(name: string, hexId: string): (safe: string)
    requires IsHexId(hexId)
    ensures IsSafeName(safe)
  {
    var s := Strip(Filter(name));
    if s == [] then
      FallbackIsSafe(hexId);
      FallbackPrefix + hexId
    else
      StripIsSafe(Filter(name));
      s
  }

  /** Stripping a string of kept characters leaves either nothing or a safe name. */
  lemma StripIsSafe(f: string)
    requires forall k :: 0 <= k < |f| ==> IsKept(f[k])
    ensures Strip(f) == [] || IsSafeName(Strip(f))
  {
    TrimmedSliceKept(f, Strip(f), |f| - |StripLeading(f)|);
  }

  lemma FallbackIsSafe(hexId: string)
    requires IsHexId(hexId)
    ensures IsSafeName(FallbackPrefix + hexId)
  {
    var s := FallbackPrefix + hexId;
    forall i | 0 <= i < |s| ensures IsKept(s[i]) {
      if i >= |FallbackPrefix| {
        assert s[i] == hexId[i - |FallbackPrefix|];
      }
    }
    assert s[|s| - 1] == hexId[7];
  }

  /** A slice of a string of kept characters consists of kept characters. */
  lemma TrimmedSliceKept(f: string, s: string, i: int)
    requires forall k :: 0 <= k < |f| ==> IsKept(f[k])
    requires IsTrimmedSlice(f, s, i)
    ensures forall k :: 0 <= k < |s| ==> IsKept(s[k])
  {
    forall k | 0 <= k < |s| ensures IsKept(s[k]) {
      assert s[k] == f[i + k];
    }
  }

  /** Filtering distributes over concatenation: kept characters stay in their original order. */
  lemma {:induction false} FilterConcat(a: string, b: string)
    ensures Filter(a + b) == Filter(a) + Filter(b)
    decreases |a|
  {
    if a == [] {
      assert a + b == b;
    } else {
      assert (a + b)[0] == a[0] && (a + b)[1..] == a[1..] + b;
      FilterConcat(a[1..], b);
    }
  }

  /** Filtering keeps every occurrence of a kept character and drops every other character. */
  lemma {:induction false} FilterCounts(s: string, c: char)
    ensures multiset(Filter(s))[c] == if IsKept(c) then multiset(s)[c] else 0
    decreases |s|
  {
    if s != [] {
      assert s == [s[0]] + s[1..];
      FilterCounts(s[1..], c);
    }
  }

  /** A string of kept characters passes the filter unchanged. */
  lemma {:induction false} FilterKeepsKept(s: string)
    requires forall i :: 0 <= i < |s| ==> IsKept(s[i])
    ensures Filter(s) == s
    decreases |s|
  {
    if s != [] {
      FilterKeepsKept(s[1..]);
    }
  }

  /**
   * The identifier is the filtered name with separators trimmed off both ends,
   * a contiguous slice of it; only when the filtered name is all separators
   * (or empty) is it the fallback `profile_<hex>`.
   */
  lemma SanitizeIsTrimmedFilter(name: string, hexId: string)
    requires IsHexId(hexId)
    ensures var f := Filter(name);
      var safe := Sanitize(name, hexId);
      if AllSeparators(f) then
        safe == FallbackPrefix + hexId
      else
        exists i :: IsTrimmedSlice(f, safe, i)
  {
    var f := Filter(name);
    var s := Strip(f);
    var i := |f| - |StripLeading(f)|;
    assert IsTrimmedSlice(f, s, i);
    if s == [] {
      assert forall k :: 0 <= k < |f| ==> IsSeparator(f[k]);
      assert Sanitize(name, hexId) == FallbackPrefix + hexId;
    } else {
      assert 0 <= i < |f| && f[i] == s[0] && !IsSeparator(f[i]);
      assert Sanitize(name, hexId) == s;
    }
  }

  /**
   * Characters the filter drops do not affect the identifier: "Soham!" and
   * "Soham?" both become "Soham", so saving both writes one file.
   */
  lemma SanitizeIgnoresDropped(name: string, c: char, hexId: string)
    requires IsHexId(hexId) && !IsKept(c)
    ensures Sanitize(name + [c], hexId) == Sanitize(name, hexId)
  {
    FilterConcat(name, [c]);
    assert Filter([c]) == [];
    assert Filter(name) + [] == Filter(name);
  }

  /** A name that already has the safe shape is its own identifier. */
  lemma SanitizeFixesSafe(name: string, hexId: string)
    requires IsHexId(hexId) && IsSafeName(name)
    ensures Sanitize(name, hexId) == name
  {
    FilterKeepsKept(name);
  }

  /** Sanitising an identifier again changes nothing, whatever UUID the second call draws. */
  lemma SanitizeIdempotent(name: string, hexId: string, hexId': string)
    requires IsHexId(hexId) && IsHexId(hexId')
    ensures Sanitize(Sanitize(name, hexId), hexId') == Sanitize(name, hexId)
  {
    SanitizeFixesSafe(Sanitize(name, hexId), hexId');
  }

  /** An identifier never contains a path separator or a dot. */
  lemma SafeNameIsPlain(s: string)
    requires IsSafeName(s)
    ensures '/' !in s && '.' !in s
  {
    assert forall i :: 0 <= i < |s| ==> IsKept(s[i]);
  }
}
