/**
 * Models of the C library string and character routines the modelled code
 * relies on. A C string is held as the sequence of its characters without
 * the terminating NUL; reading past the end yields NUL, as reading the
 * terminator does in C.
 */
module CLib {

  datatype Option<T> = None | Some(value: T)

  /** The character at index i; past the end this is the terminating NUL. */
  function At(s: string, i: nat): char
  {
    if i < |s| then s[i] else '\0'
  }

  /** A C string never contains NUL before its terminator. */
  predicate NoNul(s: string)
  {
    forall i :: 0 <= i < |s| ==> s[i] != '\0'
  }

  /** isspace() in the C locale. */
  predicate IsSpace(c: char)
  {
    c == ' ' || c == '\t' || c == '\n' || c == '\U{0B}' || c == '\U{0C}' || c == '\r'
  }

  /** isdigit() */
  predicate IsDigit(c: char)
  {
    '0' <= c <= '9'
  }

  function DigitValue(c: char): (d: nat)
    requires IsDigit(c)
    ensures d < 10
  {
    c as int - '0' as int
  }

  function DigitChar(d: nat): (c: char)
    requires d < 10
    ensures IsDigit(c) && DigitValue(c) == d
  {
    ('0' as int + d) as char
  }

  /** tolower() in the C locale: only A-Z change. */
  function ToLower(c: char): char
  {
    if 'A' <= c <= 'Z' then (c as int + 32) as char else c
  }

  /** toupper() in the C locale: only a-z change. */
  function ToUpper(c: char): char
  {
    if 'a' <= c <= 'z' then (c as int - 32) as char else c
  }

  /** strcasecmp(a, b) == 0 for two C strings. */
  predicate CaseEq(a: string, b: string)
  {
    |a| == |b| && forall i :: 0 <= i < |a| ==> ToLower(a[i]) == ToLower(b[i])
  }

  /** a is a case-insensitive prefix of b. */
  predicate CasePrefix(a: string, b: string)
  {
    |a| <= |b| && CaseEq(a, b[..|a|])
  }

  /**
   * strncasecmp(a + i, b + i, n - i) == 0: the characters agree up to case
   * until n characters were compared or both strings ended together.
   */
  predicate NCaseEqFrom(a: string, b: string, i: nat, n: nat)
    decreases n - i
  {
    i >= n ||
    (ToLower(At(a, i)) == ToLower(At(b, i)) && (At(a, i) == '\0' || NCaseEqFrom(a, b, i + 1, n)))
  }

  /** strncasecmp(a, b, n) == 0 */
  predicate NCaseEq(a: string, b: string, n: nat)
  {
    NCaseEqFrom(a, b, 0, n)
  }

  /** Matching the first n characters of a keyword without NUL, up to case, needs n characters. */
  lemma {:induction false} NCaseEqFromLong(a: string, kw: string, i: nat, n: nat)
    requires NoNul(kw) && i <= n <= |kw| && i <= |a| && NCaseEqFrom(a, kw, i, n)
    ensures n <= |a|
    decreases n - i
  {
    if i < n {
      assert At(kw, i) == kw[i] != '\0';
      assert At(a, i) != '\0';
      NCaseEqFromLong(a, kw, i + 1, n);
    }
  }

  /** strncmp(a + i, b + i, n - i) == 0 */
  predicate NEqFrom(a: string, b: string, i: nat, n: nat)
    decreases n - i
  {
    i >= n || (At(a, i) == At(b, i) && (At(a, i) == '\0' || NEqFrom(a, b, i + 1, n)))
  }

  /** strncmp(a, b, n) == 0 */
  predicate NEq(a: string, b: string, n: nat)
  {
    NEqFrom(a, b, 0, n)
  }

  /** From index i on, a agrees with kw up to case, and kw is no shorter than a. */
  predicate AgreesFrom(a: string, kw: string, i: nat)
  {
    (i < |a| ==> |a| <= |kw|) &&
    forall k :: i <= k < |a| && k < |kw| ==> ToLower(a[k]) == ToLower(kw[k])
  }

  lemma {:induction false} NCaseEqFromPrefix(a: string, kw: string, i: nat)
    requires NoNul(a) && NoNul(kw) && i <= |a|
    ensures NCaseEqFrom(a, kw, i, |a|) <==> AgreesFrom(a, kw, i)
    decreases |a| - i
  {
    if i < |a| {
      NCaseEqFromPrefix(a, kw, i + 1);
      assert At(a, i) == a[i] && a[i] != '\0';
      if |kw| <= i {
        assert At(kw, i) == '\0';
        assert ToLower(a[i]) != '\0';
      } else {
        assert At(kw, i) == kw[i];
      }
    }
  }

  /**
   * strncasecmp(a, kw, strlen(a)) == 0 holds exactly when a is a
   * case-insensitive prefix of kw; in particular the empty string is a
   * prefix of every keyword.
   */
  lemma NCaseEqIsCasePrefix(a: string, kw: string)
    requires NoNul(a) && NoNul(kw)
    ensures NCaseEq(a, kw, |a|) <==> CasePrefix(a, kw)
  {
    NCaseEqFromPrefix(a, kw, 0);
    if |a| <= |kw| {
      assert forall k :: 0 <= k < |a| ==> kw[..|a|][k] == kw[k];
    }
  }

  /** From index i on, a spells out pat, and is long enough to. */
  predicate MatchesFrom(a: string, pat: string, i: nat)
  {
    (i < |pat| ==> |pat| <= |a|) &&
    forall k :: i <= k < |pat| && k < |a| ==> a[k] == pat[k]
  }

  lemma {:induction false} NEqFromPrefix(a: string, pat: string, i: nat)
    requires NoNul(pat) && i <= |pat|
    ensures NEqFrom(a, pat, i, |pat|) <==> MatchesFrom(a, pat, i)
    decreases |pat| - i
  {
    if i < |pat| {
      NEqFromPrefix(a, pat, i + 1);
      assert At(pat, i) == pat[i] && pat[i] != '\0';
      if i < |a| {
        assert At(a, i) == a[i];
      }
    }
  }

  /** strncmp(a, pat, strlen(pat)) == 0 holds exactly when pat is a prefix of a. */
  lemma NEqIsPrefix(a: string, pat: string)
    requires NoNul(pat)
    ensures NEq(a, pat, |pat|) <==> |pat| <= |a| && a[..|pat|] == pat
  {
    NEqFromPrefix(a, pat, 0);
  }

  lemma {:induction false} NEqFromMono(a: string, b: string, i: nat, m: nat, n: nat)
    requires m <= n && NEqFrom(a, b, i, n)
    ensures NEqFrom(a, b, i, m)
    decreases n - i
  {
    if i < m && At(a, i) != '\0' {
      NEqFromMono(a, b, i + 1, m, n);
    }
  }

  /** strncmp(a, pat, n) == 0 with n at least strlen(pat) implies pat is a prefix of a. */
  lemma NEqLong(a: string, pat: string, n: nat)
    requires NoNul(pat) && |pat| <= n && NEq(a, pat, n)
    ensures |pat| <= |a| && a[..|pat|] == pat
  {
    NEqFromMono(a, pat, 0, |pat|, n);
    NEqIsPrefix(a, pat);
  }

  lemma {:induction false} NEqFromExact(a: string, b: string, i: nat)
    requires NoNul(a) && NoNul(b) && i <= |a| && i <= |b|
    ensures NEqFrom(a, b, i, |b| + 1) <==> a[i..] == b[i..]
    decreases |b| - i
  {
    if i < |a| && i < |b| {
      assert At(a, i) == a[i] && At(b, i) == b[i] && a[i] != '\0';
      NEqFromExact(a, b, i + 1);
      assert a[i..] == [a[i]] + a[i + 1..] && b[i..] == [b[i]] + b[i + 1..];
    } else if i < |b| {
      assert At(a, i) == '\0' && At(b, i) == b[i] && b[i] != '\0';
      assert |a[i..]| != |b[i..]|;
    } else if i < |a| {
      assert At(b, i) == '\0' && At(a, i) == a[i] && a[i] != '\0';
      assert |a[i..]| != |b[i..]|;
    }
  }

  /** strncmp(a, b, strlen(b) + 1) == 0 holds exactly when the C strings are equal. */
  lemma NEqExact(a: string, b: string)
    requires NoNul(a) && NoNul(b)
    ensures NEq(a, b, |b| + 1) <==> a == b
  {
    NEqFromExact(a, b, 0);
  }

  lemma SeqAppendAssoc<T>(a: seq<T>, b: seq<T>, c: seq<T>)
    ensures (a + b) + c == a + (b + c)
  {
  }

  /** Length of the run of whitespace starting at i. */
  function SkipSpace(s: string, i: nat): (j: nat)
    requires i <= |s|
    ensures i <= j <= |s|
    ensures forall k :: i <= k < j ==> IsSpace(s[k])
    ensures j == |s| || !IsSpace(s[j])
    decreases |s| - i
  {
    if i < |s| && IsSpace(s[i]) then SkipSpace(s, i + 1) else i
  }

  /** End of the run of digits starting at i. */
  function DigitsEnd(s: string, i: nat): (j: nat)
    requires i <= |s|
    ensures i <= j <= |s|
    ensures forall k :: i <= k < j ==> IsDigit(s[k])
    ensures j == |s| || !IsDigit(s[j])
    decreases |s| - i
  {
    if i < |s| && IsDigit(s[i]) then DigitsEnd(s, i + 1) else i
  }

  predicate AllDigits(s: string)
  {
    forall k :: 0 <= k < |s| ==> IsDigit(s[k])
  }

  /** The value of a string of decimal digits. */
  function DecValue(ds: string): nat
    requires AllDigits(ds)
  {
    if ds == [] then 0 else DecValue(ds[..|ds| - 1]) * 10 + DigitValue(ds[|ds| - 1])
  }

  /** The result of strtol(s, &end, 10): the value and the index end points at. */
  datatype Parsed = Parsed(value: int, end: nat)

  const INT_MAX: int := 0x7fff_ffff
  const LONG_MAX: int := 0x7fff_ffff_ffff_ffff

  /** A value out of the range of a 64-bit long is replaced by the nearer bound. */
  function Saturate(v: int): (r: int)
    ensures -LONG_MAX - 1 <= r <= LONG_MAX
    ensures -LONG_MAX - 1 <= v <= LONG_MAX ==> r == v
    ensures v > LONG_MAX ==> r == LONG_MAX
    ensures v < -LONG_MAX - 1 ==> r == -LONG_MAX - 1
  {
    if v > LONG_MAX then LONG_MAX else if v < -LONG_MAX - 1 then -LONG_MAX - 1 else v
  }

  /**
   * strtol(s, &end, 10) for a 64-bit long: skip whitespace, an optional
   * sign, then digits; a value beyond LONG_MIN/LONG_MAX saturates. With no
   * digits the value is 0 and end points at the start of s.
   */
  function Strtol(s: string): (p: Parsed)
    ensures p.end <= |s|
    ensures -LONG_MAX - 1 <= p.value <= LONG_MAX
  {
    var i := SkipSpace(s, 0);
    var j := if i < |s| && (s[i] == '+' || s[i] == '-') then i + 1 else i;
    var k := DigitsEnd(s, j);
    if k == j then Parsed(0, 0)
    else
      var v: int := DecValue(s[j..k]);
      Parsed(Saturate(if j > i && s[i] == '-' then -v else v), k)
  }

  /** The (int) conversion of a long: the low 32 bits, read as a two's complement number. */
  function ToInt32(v: int): (r: int)
    ensures -INT_MAX - 1 <= r <= INT_MAX
    ensures (v - r) % 0x1_0000_0000 == 0
    ensures -INT_MAX - 1 <= v <= INT_MAX ==> r == v
  {
    var w := v % 0x1_0000_0000;
    if w > INT_MAX then w - 0x1_0000_0000 else w
  }

  /** atoi(s), which glibc computes as (int)strtol(s, NULL, 10). */
  function Atoi(s: string): (r: int)
    ensures -INT_MAX - 1 <= r <= INT_MAX
  {
    ToInt32(Strtol(s).value)
  }

  /** The decimal digits of n, as printf("%u") writes them. */
  function FormatNat(n: nat): (s: string)
    ensures |s| > 0 && AllDigits(s)
  {
    if n < 10 then [DigitChar(n)] else FormatNat(n / 10) + [DigitChar(n % 10)]
  }

  /** printf("%d") of n. */
  function FormatInt(n: int): (s: string)
    ensures |s| > 0
  {
    if n < 0 then "-" + FormatNat(-n) else FormatNat(n)
  }

  lemma {:induction false} FormatNatValue(n: nat)
    ensures DecValue(FormatNat(n)) == n
  {
    var s := FormatNat(n);
    if n >= 10 {
      FormatNatValue(n / 10);
      assert s[..|s| - 1] == FormatNat(n / 10);
    }
  }

  lemma DigitsEndAll(s: string, i: nat)
    requires i <= |s| && forall k :: i <= k < |s| ==> IsDigit(s[k])
    ensures DigitsEnd(s, i) == |s|
    decreases |s| - i
  {
    if i < |s| { DigitsEndAll(s, i + 1); }
  }

  /** strtol reads back the value printf("%d") wrote, saturated, consuming it all. */
  lemma StrtolFormatInt(n: int)
    ensures Strtol(FormatInt(n)) == Parsed(Saturate(n), |FormatInt(n)|)
  {
    var s := FormatInt(n);
    assert !IsSpace(s[0]);
    if n < 0 {
      var ds := FormatNat(-n);
      assert s[0] == '-' && s[1..] == ds;
      assert SkipSpace(s, 0) == 0;
      DigitsEndAll(s, 1);
      assert s[1..|s|] == ds;
      FormatNatValue(-n);
    } else {
      DigitsEndAll(s, 0);
      assert s[0..|s|] == s;
      FormatNatValue(n);
    }
  }

  /** atoi of a printed number is the number saturated to a long, then converted to int. */
  lemma AtoiOfNumber(n: int)
    ensures Atoi(FormatInt(n)) == ToInt32(Saturate(n))
  {
    StrtolFormatInt(n);
  }

  /** A string of digits is read whole, with its saturated decimal value. */
  lemma StrtolDigits(s: string)
    requires |s| > 0 && AllDigits(s)
    ensures Strtol(s) == Parsed(Saturate(DecValue(s)), |s|)
  {
    assert !IsSpace(s[0]);
    DigitsEndAll(s, 0);
    assert s[0..|s|] == s;
  }

  /** strtol stops at the first character after the digits that is not a digit. */
  lemma StrtolBeforeSeparator(ds: string, rest: string)
    requires |ds| > 0 && AllDigits(ds) && |rest| > 0 && !IsDigit(rest[0])
    ensures Strtol(ds + rest) == Parsed(Saturate(DecValue(ds)), |ds|)
  {
    var s := ds + rest;
    assert s[0] == ds[0] && !IsSpace(s[0]) && s[0] != '+' && s[0] != '-';
    assert SkipSpace(s, 0) == 0;
    DigitsEndFrom(s, 0, |ds|);
    assert s[0..|ds|] == ds;
  }

  lemma DigitsEndFrom(s: string, i: nat, n: nat)
    requires i <= n < |s| && (forall k :: i <= k < n ==> IsDigit(s[k])) && !IsDigit(s[n])
    ensures DigitsEnd(s, i) == n
    decreases n - i
  {
    if i < n {
      DigitsEndFrom(s, i + 1, n);
    }
  }

  /** Index of the NUL that ends the C string starting at i. */
  function CStrEnd(s: string, i: nat): (e: nat)
    ensures i <= e && (e < |s| ==> s[e] == '\0')
    ensures forall k :: i <= k < e && k < |s| ==> s[k] != '\0'
    ensures e > |s| ==> e == i
    decreases |s| - i
  {
    if i >= |s| || s[i] == '\0' then i else CStrEnd(s, i + 1)
  }

  /** The terminator found from i is the first NUL at or after i, or the end of the buffer. */
  lemma {:induction false} CStrEndAt(s: string, i: nat, j: nat)
    requires i <= j <= |s| && (j < |s| ==> s[j] == '\0')
    requires forall k :: i <= k < j ==> s[k] != '\0'
    ensures CStrEnd(s, i) == j
    decreases j - i
  {
    if i < j {
      CStrEndAt(s, i + 1, j);
    }
  }

  /** The C string that starts at index i of a buffer. */
  function CStrAt(s: string, i: nat): (r: string)
    ensures NoNul(r)
  {
    if i >= |s| then "" else s[i..CStrEnd(s, i)]
  }

  /** strchr(s, c) for c != NUL: the first index of c before the terminator. */
  function StrChr(s: string, c: char): (r: Option<nat>)
    requires c != '\0'
    ensures r.Some? ==> r.value < |s| && s[r.value] == c && NoNul(s[..r.value])
    ensures r.Some? ==> forall k :: 0 <= k < r.value ==> s[k] != c
    ensures r.None? ==> forall k :: 0 <= k < CStrEnd(s, 0) && k < |s| ==> s[k] != c
  {
    StrChrFrom(s, c, 0)
  }

  function StrChrFrom(s: string, c: char, i: nat): (r: Option<nat>)
    requires c != '\0'
    ensures r.Some? ==> i <= r.value < |s| && s[r.value] == c
    ensures r.Some? ==> forall k :: i <= k < r.value ==> s[k] != c && s[k] != '\0'
    ensures r.None? ==> forall k :: i <= k < CStrEnd(s, i) && k < |s| ==> s[k] != c
    decreases |s| - i
  {
    if i >= |s| || s[i] == '\0' then None
    else if s[i] == c then Some(i)
    else StrChrFrom(s, c, i + 1)
  }

  /**
   * strstr(s + from, pat) for a non-empty pattern without NUL: the first
   * index at or after from where pat starts, within the C string at from.
   */
  function StrStr(s: string, from: nat, pat: string): (r: Option<nat>)
    requires |pat| > 0 && NoNul(pat)
    ensures r.Some? ==> from <= r.value && r.value + |pat| <= |s| && s[r.value..r.value + |pat|] == pat
    decreases |s| - from
  {
    if from >= |s| || s[from] == '\0' then None
    else if from + |pat| <= |s| && s[from..from + |pat|] == pat then Some(from)
    else StrStr(s, from + 1, pat)
  }

  /** strstr finds nothing when the last character of the pattern never occurs. */
  lemma {:induction false} StrStrAbsent(s: string, from: nat, pat: string)
    requires |pat| > 0 && NoNul(pat)
    requires forall k :: from <= k < |s| ==> s[k] != pat[|pat| - 1]
    ensures StrStr(s, from, pat) == None
    decreases |s| - from
  {
    if from < |s| && s[from] != '\0' {
      if from + |pat| <= |s| {
        assert s[from..from + |pat|][|pat| - 1] != pat[|pat| - 1];
      }
      StrStrAbsent(s, from + 1, pat);
    }
  }
}
