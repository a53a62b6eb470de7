/** String helpers used by the auto-configuration matcher: the whitespace
    trimming of StripSpace (src/autoconfig.c), and the C library routines the
    matcher relies on (strcasecmp, strcasestr, atoi and the %i conversion of
    sprintf), each restricted to ASCII and NUL-free strings. */
module Text {

  // ---------------------------------------------------------------------
  // StripSpace
  // ---------------------------------------------------------------------

  /** The four characters StripSpace removes from either end of a string. */
  predicate IsStripSpace(c: char)
  {
    c == ' ' || c == '\t' || c == '\r' || c == '\n'
  }

  /** s[i..j] is what is left of s once the whitespace margins s[..i] and
      s[j..] are removed: the margins are whitespace only, and the slice
      neither starts nor ends with whitespace. */
  predicate StrippedSlice(s: string, i: int, j: int)
  {
    && 0 <= i <= j <= |s|
    && (forall k :: 0 <= k < i ==> IsStripSpace(s[k]))
    && (forall k :: j <= k < |s| ==> IsStripSpace(s[k]))
    && (i < j ==> !IsStripSpace(s[i]) && !IsStripSpace(s[j - 1]))
  }

  /** StripSpace (src/autoconfig.c:50-61): s without whitespace at either
      end, one character at a time. */
  function Strip(s: string): (r: string)
    ensures |r| <= |s|
    ensures r != [] ==> !IsStripSpace(r[0]) && !IsStripSpace(r[|r| - 1])
    decreases |s|
  {
    if s == [] then []
    else if IsStripSpace(s[0]) then Strip(s[1..])
    else if IsStripSpace(s[|s| - 1]) then Strip(s[..|s| - 1])
    else s
  }

  /** A stripped slice of s[1..] is one of s, shifted, when s[0] is
      whitespace. */
  lemma StrippedSliceOfSuffix(s: string, i: int, j: int)
    requires s != [] && IsStripSpace(s[0]) && StrippedSlice(s[1..], i, j)
    ensures StrippedSlice(s, i + 1, j + 1) && s[1..][i..j] == s[i + 1..j + 1]
  {
    var t := s[1..];
    forall k | 0 <= k < i + 1 ensures IsStripSpace(s[k]) {
      if k > 0 { assert s[k] == t[k - 1]; }
    }
    forall k | j + 1 <= k < |s| ensures IsStripSpace(s[k]) {
      assert s[k] == t[k - 1];
    }
  }

  /** Strip(s) is a stripped slice of s. */
  lemma {:induction false} StripIsStrippedSlice(s: string)
    ensures exists i, j :: StrippedSlice(s, i, j) && Strip(s) == s[i..j]
    decreases |s|
  {
    if s == [] {
      assert StrippedSlice(s, 0, 0);
    } else if IsStripSpace(s[0]) {
      var t := s[1..];
      StripIsStrippedSlice(t);
      var i, j :| StrippedSlice(t, i, j) && Strip(t) == t[i..j];
      StrippedSliceOfSuffix(s, i, j);
    } else if IsStripSpace(s[|s| - 1]) {
      var t := s[..|s| - 1];
      StripIsStrippedSlice(t);
      var i, j :| StrippedSlice(t, i, j) && Strip(t) == t[i..j];
      StrippedSliceOfPrefix(s, |s| - 1, i, j);
    } else {
      assert StrippedSlice(s, 0, |s|);
      assert s[0..|s|] == s;
    }
  }

  /** The stripped slice of a string is unique: whatever margins satisfy
      StrippedSlice, they cut out exactly Strip(s). */
  lemma StrippedSliceIsStrip(s: string, i: int, j: int)
    requires StrippedSlice(s, i, j)
    ensures Strip(s) == s[i..j]
  {
    StripIsStrippedSlice(s);
    var r := Strip(s);
    var i', j' :| StrippedSlice(s, i', j') && r == s[i'..j'];
    // the first and last non-space characters pin both slices down
    if i < j { assert !IsStripSpace(s[i]) && !IsStripSpace(s[j - 1]); }
    if i' < j' { assert !IsStripSpace(s[i']) && !IsStripSpace(s[j' - 1]); }
  }

  /** Stripping twice is stripping once. */
  lemma StripIdempotent(s: string)
    ensures Strip(Strip(s)) == Strip(s)
  {
    var r := Strip(s);
    StripIsStrippedSlice(s);
    assert StrippedSlice(r, 0, |r|);
    StrippedSliceIsStrip(r, 0, |r|);
  }

  /** A stripped slice of s[..j] is a stripped slice of s when s[j..] is
      whitespace only. */
  lemma StrippedSliceOfPrefix(s: string, j: int, a: int, b: int)
    requires 0 <= j <= |s|
    requires forall k :: j <= k < |s| ==> IsStripSpace(s[k])
    requires StrippedSlice(s[..j], a, b)
    ensures StrippedSlice(s, a, b) && s[..j][a..b] == s[a..b]
  {
    var t := s[..j];
    forall k | 0 <= k < a ensures IsStripSpace(s[k]) {
      assert t[k] == s[k];
    }
    forall k | b <= k < |s| ensures IsStripSpace(s[k]) {
      if k < j { assert t[k] == s[k]; }
    }
    if a < b { assert t[a] == s[a] && t[b - 1] == s[b - 1]; }
  }

  /** Removing trailing whitespace before stripping changes nothing. */
  lemma StripDropsTrailingSpace(s: string, j: int)
    requires 0 <= j <= |s|
    requires forall k :: j <= k < |s| ==> IsStripSpace(s[k])
    ensures Strip(s[..j]) == Strip(s)
  {
    var t := s[..j];
    StripIsStrippedSlice(t);
    var a, b :| StrippedSlice(t, a, b) && Strip(t) == t[a..b];
    StrippedSliceOfPrefix(s, j, a, b);
    StrippedSliceIsStrip(s, a, b);
  }

  /** The pointer walk of StripSpace: pIn advances over leading whitespace,
      then pEnd retreats over trailing whitespace while pIn <= pEnd.  The
      result is the slice s[lo..hi]. */
  method StripSpace(s: string) returns (lo: nat, hi: nat)
    ensures lo <= hi <= |s|
    ensures s[lo..hi] == Strip(s)
  {
    lo := 0;
    while lo < |s| && IsStripSpace(s[lo])
      invariant lo <= |s|
      invariant forall k :: 0 <= k < lo ==> IsStripSpace(s[k])
    {
      lo := lo + 1;
    }
    hi := |s|;
    while lo < hi && IsStripSpace(s[hi - 1])
      invariant lo <= hi <= |s|
      invariant forall k :: hi <= k < |s| ==> IsStripSpace(s[k])
    {
      hi := hi - 1;
    }
    StrippedSliceIsStrip(s, lo, hi);
  }

  /** strchr(s, c), as an index: the first occurrence of c, or |s| when
      there is none. */
  function IndexOf(s: string, c: char): (i: nat)
    ensures i <= |s|
    ensures forall k :: 0 <= k < i ==> s[k] != c
    ensures i < |s| ==> s[i] == c
    decreases |s|
  {
    if s == [] || s[0] == c then 0 else 1 + IndexOf(s[1..], c)
  }

  /** strchr as a pointer walk: the first c at or after i, or |s| when
      there is none. */
  method FindChar(s: string, i: nat, c: char) returns (j: nat)
    requires i <= |s|
    ensures i <= j <= |s|
    ensures forall k :: i <= k < j ==> s[k] != c
    ensures j < |s| ==> s[j] == c
    ensures j == i + IndexOf(s[i..], c)
  {
    j := i;
    while j < |s| && s[j] != c
      invariant i <= j <= |s|
      invariant forall k :: i <= k < j ==> s[k] != c
    {
      j := j + 1;
    }
    IndexOfUnique(s[i..], c, j - i);
  }

  /** Any index with the defining property of IndexOf is IndexOf. */
  lemma IndexOfUnique(s: string, c: char, i: nat)
    requires i <= |s|
    requires forall k :: 0 <= k < i ==> s[k] != c
    requires i < |s| ==> s[i] == c
    ensures IndexOf(s, c) == i
  {
  }

  // ---------------------------------------------------------------------
  // ASCII case folding: strcasecmp and strcasestr
  // ---------------------------------------------------------------------

  /** tolower in the C locale. */
  function LowerChar(c: char): char
  {
    if 'A' <= c <= 'Z' then (c as int + 32) as char else c
  }

  /** The string with every letter lowered. */
  function Lower(s: string): (r: string)
    ensures |r| == |s| && forall k :: 0 <= k < |s| ==> r[k] == LowerChar(s[k])
  {
    if s == [] then [] else [LowerChar(s[0])] + Lower(s[1..])
  }

  /** strcasecmp(a, b) == 0: the strings agree character by character once
      lowered.  Equal strings always compare equal, and strings of
      different lengths never do. */
  function EqualsIgnoreCase(a: string, b: string): (eq: bool)
    ensures a == b ==> eq
    ensures eq ==> |a| == |b|
  {
    |a| == |b| && forall k :: 0 <= k < |a| ==> LowerChar(a[k]) == LowerChar(b[k])
  }

  /** Comparing ignoring case is comparing the lowered strings. */
  lemma EqualsIgnoreCaseLower(a: string, b: string)
    ensures EqualsIgnoreCase(a, b) <==> Lower(a) == Lower(b)
  {
    if EqualsIgnoreCase(a, b) {
      assert forall k :: 0 <= k < |a| ==> Lower(a)[k] == Lower(b)[k];
    }
    if Lower(a) == Lower(b) {
      assert forall k :: 0 <= k < |a| ==> LowerChar(a[k]) == Lower(a)[k] == Lower(b)[k] == LowerChar(b[k]);
    }
  }

  /** needle occurs in hay at offset i, ignoring case. */
  predicate MatchesAt(hay: string, needle: string, i: int)
  {
    0 <= i && i + |needle| <= |hay| && EqualsIgnoreCase(hay[i..i + |needle|], needle)
  }

  /** Matching hay[1..] at offset i is matching hay at offset i + 1. */
  lemma MatchesAtTail(hay: string, needle: string)
    requires hay != []
    ensures forall i :: 0 <= i ==> (MatchesAt(hay[1..], needle, i) <==> MatchesAt(hay, needle, i + 1))
  {
    forall i | 0 <= i
      ensures MatchesAt(hay[1..], needle, i) <==> MatchesAt(hay, needle, i + 1)
    {
      if 0 <= i && i + |needle| <= |hay| - 1 {
        assert hay[1..][i..i + |needle|] == hay[i + 1..i + 1 + |needle|];
      }
    }
  }

  /** strcasestr(hay, needle) != NULL: a scan of the candidate offsets from
      the left, which holds exactly when some offset matches. */
  function ContainsIgnoreCase(hay: string, needle: string): (found: bool)
    ensures found <==> exists i :: MatchesAt(hay, needle, i)
    decreases |hay|
  {
    if |needle| > |hay| then
      false
    else if EqualsIgnoreCase(hay[..|needle|], needle) then
      assert MatchesAt(hay, needle, 0);
      true
    else
      MatchesAtTail(hay, needle);
      assert forall i :: MatchesAt(hay, needle, i) ==> MatchesAt(hay[1..], needle, i - 1);
      ContainsIgnoreCase(hay[1..], needle)
  }

  /** A case-sensitive occurrence is also a case-insensitive one. */
  lemma ContainsExactly(hay: string, needle: string, i: int)
    requires 0 <= i && i + |needle| <= |hay| && hay[i..i + |needle|] == needle
    ensures ContainsIgnoreCase(hay, needle)
  {
    assert MatchesAt(hay, needle, i);
  }

  // ---------------------------------------------------------------------
  // Decimal text: sprintf("%i") and atoi
  // ---------------------------------------------------------------------

  predicate IsDigit(c: char)
  {
    '0' <= c <= '9'
  }

  predicate AllDigits(s: string)
  {
    forall k :: 0 <= k < |s| ==> IsDigit(s[k])
  }

  function DigitChar(d: nat): (c: char)
    requires d < 10
    ensures IsDigit(c)
  {
    ('0' as int + d) as char
  }

  /** The %i conversion of a non-negative number. */
  function Decimal(n: nat): (s: string)
    ensures |s| >= 1 && AllDigits(s)
    decreases n
  {
    if n < 10 then [DigitChar(n)] else Decimal(n / 10) + [DigitChar(n % 10)]
  }

  /** The %i conversion of any int. */
  function FormatInt(n: int): (s: string)
  {
    if n < 0 then "-" + Decimal(-n) else Decimal(n)
  }

  /** Value of a string of decimal digits, most significant first. */
  function DigitsValue(d: string): int
    decreases |d|
  {
    if d == [] then 0 else 10 * DigitsValue(d[..|d| - 1]) + (d[|d| - 1] as int - '0' as int)
  }

  /** Length of the leading run of digits. */
  function DigitRun(s: string): (n: nat)
    ensures n <= |s| && AllDigits(s[..n])
    ensures n < |s| ==> !IsDigit(s[n])
    decreases |s|
  {
    if s == [] || !IsDigit(s[0]) then 0
    else
      var n := 1 + DigitRun(s[1..]);
      assert forall k :: 1 <= k < n ==> s[..n][k] == s[1..][..n - 1][k - 1];
      n
  }

  /** isspace in the C locale: what atoi skips before the number. */
  predicate IsCSpace(c: char)
  {
    c == ' ' || c == '\t' || c == '\n' || c == '\U{B}' || c == '\U{C}' || c == '\r'
  }

  function CSpaceRun(s: string): (n: nat)
    ensures n <= |s|
    ensures n < |s| ==> !IsCSpace(s[n])
    decreases |s|
  {
    if s == [] || !IsCSpace(s[0]) then 0 else 1 + CSpaceRun(s[1..])
  }

  /** atoi: skip C whitespace, read an optional sign and then the longest
      run of digits; text with no digits reads as 0.  Overflow, undefined in
      C, is not modelled: the value is the mathematical one. */
  function Atoi(s: string): (n: int)
    ensures AllDigits(s) ==> n == DigitsValue(s)
    ensures s != [] && s[0] == '-' && AllDigits(s[1..]) ==> n == -DigitsValue(s[1..])
    ensures (forall k :: 0 <= k < |s| ==> !IsDigit(s[k])) ==> n == 0
  {
    var t := s[CSpaceRun(s)..];
    var n := if |t| > 0 && (t[0] == '-' || t[0] == '+') then
        var d := t[1..];
        var v := DigitsValue(d[..DigitRun(d)]);
        if t[0] == '-' then -v else v
      else
        DigitsValue(t[..DigitRun(t)]);
    assert AllDigits(s) ==> n == DigitsValue(s) by {
      if AllDigits(s) && s != [] {
        assert t == s;
        AllDigitsRun(s);
        assert s[..|s|] == s;
      }
    }
    assert s != [] && s[0] == '-' && AllDigits(s[1..]) ==> n == -DigitsValue(s[1..]) by {
      if s != [] && s[0] == '-' && AllDigits(s[1..]) {
        assert t == s;
        AllDigitsRun(s[1..]);
        assert s[1..][..|s| - 1] == s[1..];
      }
    }
    n
  }

  lemma {:induction false} DecimalValue(n: nat)
    ensures DigitsValue(Decimal(n)) == n
    decreases n
  {
    if n >= 10 {
      var s := Decimal(n);
      assert s[..|s| - 1] == Decimal(n / 10);
      DecimalValue(n / 10);
    }
  }

  lemma AllDigitsRun(s: string)
    requires AllDigits(s)
    ensures DigitRun(s) == |s|
  {
  }

  /** atoi reads back every number that %i writes. */
  lemma AtoiFormatInt(n: int)
    ensures Atoi(FormatInt(n)) == n
  {
    if n < 0 {
      assert FormatInt(n)[1..] == Decimal(-n);
      DecimalValue(-n);
    } else {
      DecimalValue(n);
    }
  }

  /** Distinct numbers print differently. */
  lemma DecimalInjective(m: nat, n: nat)
    requires Decimal(m) == Decimal(n)
    ensures m == n
  {
    DecimalValue(m);
    DecimalValue(n);
  }
}
