/**
 * The parsers sbatch applies to single option arguments: distribution and
 * connection types, mail types, sizes with a unit letter, plain integers,
 * node geometries, and the helpers that take a command's base name and
 * split the PATH variable into directories.
 */
module SbatchArgs {
  import opened CLib

  // ---------------------------------------------------------------------
  // Distribution and connection types
  // ---------------------------------------------------------------------

  /** The task_dist_states values _verify_dist_type can return. */
  datatype DistType = Cyclic | Block | Arbitrary

  /**
   * _verify_dist_type: the first of cyclic, block and arbitrary whose
   * first strlen(arg) characters match the argument up to case. None
   * stands for the -1 returned otherwise.
   */
  function VerifyDistType(arg: string): Option<DistType>
  {
    if NCaseEq(arg, "cyclic", |arg|) then Some(Cyclic)
    else if NCaseEq(arg, "block", |arg|) then Some(Block)
    else if NCaseEq(arg, "arbitrary", |arg|) then Some(Arbitrary)
    else None
  }

  /** A distribution is accepted iff it abbreviates a keyword; the first keyword in order wins. */
  lemma DistTypeIsFirstPrefix(arg: string)
    requires NoNul(arg)
    ensures VerifyDistType(arg) == Some(Cyclic) <==> CasePrefix(arg, "cyclic")
    ensures VerifyDistType(arg) == Some(Block) <==>
            !CasePrefix(arg, "cyclic") && CasePrefix(arg, "block")
    ensures VerifyDistType(arg) == Some(Arbitrary) <==>
            !CasePrefix(arg, "cyclic") && !CasePrefix(arg, "block") && CasePrefix(arg, "arbitrary")
    ensures VerifyDistType(arg).None? <==>
            !CasePrefix(arg, "cyclic") && !CasePrefix(arg, "block") && !CasePrefix(arg, "arbitrary")
  {
    NCaseEqIsCasePrefix(arg, "cyclic");
    NCaseEqIsCasePrefix(arg, "block");
    NCaseEqIsCasePrefix(arg, "arbitrary");
  }

  /** The connection types _verify_conn_type can return. */
  datatype ConnType = Mesh | Torus | Nav

  /** _verify_conn_type: as _verify_dist_type, over MESH, TORUS and NAV. */
  function VerifyConnType(arg: string): Option<ConnType>
  {
    if NCaseEq(arg, "MESH", |arg|) then Some(Mesh)
    else if NCaseEq(arg, "TORUS", |arg|) then Some(Torus)
    else if NCaseEq(arg, "NAV", |arg|) then Some(Nav)
    else None
  }

  lemma ConnTypeIsFirstPrefix(arg: string)
    requires NoNul(arg)
    ensures VerifyConnType(arg) == Some(Mesh) <==> CasePrefix(arg, "MESH")
    ensures VerifyConnType(arg) == Some(Torus) <==>
            !CasePrefix(arg, "MESH") && CasePrefix(arg, "TORUS")
    ensures VerifyConnType(arg) == Some(Nav) <==>
            !CasePrefix(arg, "MESH") && !CasePrefix(arg, "TORUS") && CasePrefix(arg, "NAV")
    ensures VerifyConnType(arg).None? <==>
            !CasePrefix(arg, "MESH") && !CasePrefix(arg, "TORUS") && !CasePrefix(arg, "NAV")
  {
    NCaseEqIsCasePrefix(arg, "MESH");
    NCaseEqIsCasePrefix(arg, "TORUS");
    NCaseEqIsCasePrefix(arg, "NAV");
  }

  // ---------------------------------------------------------------------
  // Mail types
  // ---------------------------------------------------------------------

  const MAIL_JOB_BEGIN: bv16 := 1
  const MAIL_JOB_END: bv16 := 2
  const MAIL_JOB_FAIL: bv16 := 4

  /** _parse_mail_type: a keyword, compared without regard to case; 0 for anything else. */
  function ParseMailType(arg: string): bv16
  {
    if CaseEq(arg, "BEGIN") then MAIL_JOB_BEGIN
    else if CaseEq(arg, "END") then MAIL_JOB_END
    else if CaseEq(arg, "FAIL") then MAIL_JOB_FAIL
    else if CaseEq(arg, "ALL") then MAIL_JOB_BEGIN | MAIL_JOB_END | MAIL_JOB_FAIL
    else 0
  }

  /** The values _print_mail_type has a name for. */
  predicate NamedMailType(t: bv16)
  {
    t == 0 || t == MAIL_JOB_BEGIN || t == MAIL_JOB_END || t == MAIL_JOB_FAIL ||
    t == MAIL_JOB_BEGIN | MAIL_JOB_END | MAIL_JOB_FAIL
  }

  /** _print_mail_type: the upper-case name, "NONE" for 0 and "UNKNOWN" for any other value. */
  function PrintMailType(t: bv16): (name: string)
    ensures name == "UNKNOWN" <==> !NamedMailType(t)
  {
    if t == 0 then "NONE"
    else if t == MAIL_JOB_BEGIN then "BEGIN"
    else if t == MAIL_JOB_END then "END"
    else if t == MAIL_JOB_FAIL then "FAIL"
    else if t == MAIL_JOB_BEGIN | MAIL_JOB_END | MAIL_JOB_FAIL then "ALL"
    else "UNKNOWN"
  }

  /** Printing a named mail type and parsing the name gives the value back. */
  lemma MailTypeRoundTrip(t: bv16)
    requires NamedMailType(t)
    ensures ParseMailType(PrintMailType(t)) == t
  {
    if t == MAIL_JOB_BEGIN | MAIL_JOB_END | MAIL_JOB_FAIL {
      assert ToLower("ALL"[0]) != ToLower("END"[0]);
    } else if t == 0 {
      assert ToLower("NONE"[0]) != ToLower("FAIL"[0]);
    }
  }

  /**
   * Parsing yields a named value, and a non-zero result is printed as the
   * keyword that was parsed, in upper case.
   */
  lemma ParsedMailTypeIsNamed(arg: string)
    ensures NamedMailType(ParseMailType(arg))
    ensures ParseMailType(arg) != 0 ==> CaseEq(PrintMailType(ParseMailType(arg)), arg)
    ensures ParseMailType(arg) == 0 <==>
            !CaseEq(arg, "BEGIN") && !CaseEq(arg, "END") && !CaseEq(arg, "FAIL") && !CaseEq(arg, "ALL")
  {
  }

  // ---------------------------------------------------------------------
  // Sizes and integers
  // ---------------------------------------------------------------------

  /**
   * _to_bytes. A string ending in a digit is read by strtol; one ending in
   * G (either case) is read without that letter and multiplied by 1024, in
   * M it is read as it is, and with any other last character it is
   * negated. A number that does not use up the string it was read from is
   * negated as well. The argument must not be empty: the code looks at the
   * character before the terminator.
   */
  function ToBytes(arg: string): int
    requires |arg| > 0
  {
    var last := arg[|arg| - 1];
    if IsDigit(last) then
      var p := Strtol(arg);
      if At(arg, p.end) != '\0' then -p.value else p.value
    else
      var multiplier := if ToUpper(last) == 'G' then 1024 else if ToUpper(last) == 'M' then 1 else -1;
      var buf := arg[..|arg| - 1];
      var p := Strtol(buf);
      var result := multiplier * p.value;
      if At(buf, p.end) != '\0' then -result else result
  }

  lemma FormatIntEndsInDigit(n: int)
    ensures IsDigit(FormatInt(n)[|FormatInt(n)| - 1])
  {
    var ds := if n < 0 then FormatNat(-n) else FormatNat(n);
    assert FormatInt(n)[|FormatInt(n)| - 1] == ds[|ds| - 1];
  }

  /**
   * A number as printf("%d") writes it is its own size, saturated to a
   * long; with a G or M suffix it is scaled.
   */
  lemma ToBytesOfNumber(n: int)
    ensures ToBytes(FormatInt(n)) == Saturate(n)
    ensures ToBytes(FormatInt(n) + "G") == Saturate(n) * 1024 && ToBytes(FormatInt(n) + "g") == Saturate(n) * 1024
    ensures ToBytes(FormatInt(n) + "M") == Saturate(n) && ToBytes(FormatInt(n) + "m") == Saturate(n)
    ensures n > LONG_MAX ==> ToBytes(FormatInt(n)) == LONG_MAX
  {
    var s := FormatInt(n);
    StrtolFormatInt(n);
    FormatIntEndsInDigit(n);
    assert (s + "G")[..|s + "G"| - 1] == s;
    assert (s + "g")[..|s + "g"| - 1] == s;
    assert (s + "M")[..|s + "M"| - 1] == s;
    assert (s + "m")[..|s + "m"| - 1] == s;
  }

  /** Any other unit letter negates the number. */
  lemma ToBytesUnknownUnit(n: int, u: char)
    requires !IsDigit(u) && ToUpper(u) != 'G' && ToUpper(u) != 'M'
    ensures ToBytes(FormatInt(n) + [u]) == -Saturate(n)
  {
    var s := FormatInt(n);
    StrtolFormatInt(n);
    assert (s + [u])[..|s + [u]| - 1] == s;
  }

  /**
   * A string that ends in a digit but has something else after its leading
   * digits gives the value of those digits, negated.
   */
  lemma ToBytesInteriorJunk(ds: string, c: char, rest: string)
    requires |ds| > 0 && AllDigits(ds) && !IsDigit(c) && c != '\0'
    requires |rest| > 0 && IsDigit(rest[|rest| - 1])
    ensures ToBytes(ds + [c] + rest) == -Saturate(DecValue(ds))
  {
    var s := ds + [c] + rest;
    assert s == ds + ([c] + rest);
    StrtolBeforeSeparator(ds, [c] + rest);
    assert s[|ds|] == c;
  }

  /**
   * _get_int. None stands for the exit(1) taken when strtol leaves
   * characters unread or the value is negative; a value above INT_MAX is
   * only reported, and then converted to int.
   */
  function GetInt(arg: string): Option<int>
  {
    var p := Strtol(arg);
    if At(arg, p.end) != '\0' || p.value < 0 then None else Some(ToInt32(p.value))
  }

  /**
   * A printed number is accepted iff it is not negative, and read back when
   * it fits an int; beyond LONG_MAX strtol saturates and (int) makes it -1.
   */
  lemma GetIntOfNumber(n: int)
    ensures GetInt(FormatInt(n)).Some? <==> n >= 0
    ensures 0 <= n <= INT_MAX ==> GetInt(FormatInt(n)) == Some(n)
    ensures n >= 0 ==> GetInt(FormatInt(n)) == Some(ToInt32(Saturate(n)))
    ensures n > LONG_MAX ==> GetInt(FormatInt(n)) == Some(-1)
  {
    StrtolFormatInt(n);
  }

  /** Digits followed by anything else make the program exit; an empty argument is read as 0. */
  lemma GetIntRejectsTrailing(ds: string, rest: string)
    requires |ds| > 0 && AllDigits(ds) && |rest| > 0 && !IsDigit(rest[0]) && rest[0] != '\0'
    ensures GetInt(ds + rest) == None
    ensures GetInt("") == Some(0)
  {
    StrtolBeforeSeparator(ds, rest);
    assert (ds + rest)[|ds|] == rest[0];
  }

  // ---------------------------------------------------------------------
  // Node geometry
  // ---------------------------------------------------------------------

  const NO_VAL: int := 0xffff_fffe

  /** The delimiters _verify_geometry hands to strtok_r. */
  predicate IsGeometryDelim(ch: char)
  {
    ch == ',' || ch == 'x'
  }

  predicate NoDelim(w: string)
  {
    forall k :: 0 <= k < |w| ==> !IsGeometryDelim(w[k])
  }

  function SkipDelims(s: string, i: nat): (j: nat)
    requires i <= |s|
    ensures i <= j <= |s| && (j < |s| ==> !IsGeometryDelim(s[j]))
    decreases |s| - i
  {
    if i < |s| && IsGeometryDelim(s[i]) then SkipDelims(s, i + 1) else i
  }

  function TokenEnd(s: string, i: nat): (j: nat)
    requires i <= |s|
    ensures i <= j <= |s| && (j < |s| ==> IsGeometryDelim(s[j]))
    decreases |s| - i
  {
    if i < |s| && !IsGeometryDelim(s[i]) then TokenEnd(s, i + 1) else i
  }

  /** A token holds no delimiter. */
  lemma {:induction false} TokenEndClean(s: string, i: nat)
    requires i <= |s|
    ensures NoDelim(s[i..TokenEnd(s, i)])
    decreases |s| - i
  {
    if i < |s| && !IsGeometryDelim(s[i]) {
      TokenEndClean(s, i + 1);
      assert s[i..TokenEnd(s, i)] == [s[i]] + s[i + 1..TokenEnd(s, i + 1)];
    }
  }

  /** A token and the position strtok_r continues from. */
  datatype Token = Token(text: string, next: nat)

  /**
   * strtok_r on the rest of s from position i: the delimiters there are
   * skipped; at the end of the string there is no token; otherwise the
   * token runs to the next delimiter, which is overwritten, and the next
   * call starts just after it.
   */
  function StrTok(s: string, i: nat): (t: Option<Token>)
    requires i <= |s|
    ensures t.Some? ==> i < t.value.next <= |s| && |t.value.text| > 0
  {
    var b := SkipDelims(s, i);
    if b == |s| then None
    else
      var e := TokenEnd(s, b);
      Some(Token(s[b..e], if e < |s| then e + 1 else e))
  }

  /** The tokens successive strtok_r calls hand out from position i. */
  function TokensFrom(s: string, i: nat): (toks: seq<string>)
    requires i <= |s|
    decreases |s| - i
  {
    match StrTok(s, i)
    case None => []
    case Some(t) => [t.text] + TokensFrom(s, t.next)
  }

  /** Every token strtok_r hands out is non-empty and free of delimiters. */
  lemma {:induction false} TokensAreClean(s: string, i: nat)
    requires i <= |s|
    ensures forall k :: 0 <= k < |TokensFrom(s, i)| ==>
              |TokensFrom(s, i)[k]| > 0 && NoDelim(TokensFrom(s, i)[k])
    decreases |s| - i
  {
    var b := SkipDelims(s, i);
    if b < |s| {
      TokenEndClean(s, b);
      var t := StrTok(s, i).value;
      TokensAreClean(s, t.next);
    }
  }

  /** The tokens still to come once strtok_r returned tok. */
  function Remaining(s: string, tok: Option<Token>): seq<string>
    requires tok.Some? ==> tok.value.next <= |s|
  {
    match tok
    case None => []
    case Some(t) => [t.text] + TokensFrom(s, t.next)
  }

  /** (uint16_t)atoi(token) */
  function Dimension(token: string): (d: nat)
    ensures d < 0x1_0000
  {
    Atoi(token) % 0x1_0000
  }

  /** A dimension is neither 0 nor (uint16_t)NO_VAL, which is 0xfffe. */
  predicate ValidDimension(d: nat)
  {
    d != 0 && d != NO_VAL % 0x1_0000
  }

  predicate AllValid(toks: seq<string>)
  {
    forall i :: 0 <= i < |toks| ==> ValidDimension(Dimension(toks[i]))
  }

  /** The dimensions the tokens stand for. */
  function Dimensions(toks: seq<string>): (ds: seq<nat>)
    ensures |ds| == |toks| && forall i :: 0 <= i < |toks| ==> ds[i] == Dimension(toks[i])
  {
    if toks == [] then [] else [Dimension(toks[0])] + Dimensions(toks[1..])
  }

  /**
   * The geometry _verify_geometry accepts: exactly dims tokens, each a
   * valid dimension.
   */
  function Geometry(arg: string, dims: nat): Option<seq<nat>>
  {
    var toks := TokensFrom(arg, 0);
    if |toks| == dims && AllValid(toks) then Some(Dimensions(toks)) else None
  }

  /**
   * Whether the loop of _verify_geometry gets to store entry k: there are
   * that many dimensions and tokens, and every earlier token was valid.
   */
  predicate Reached(toks: seq<string>, dims: nat, k: nat)
  {
    k < dims && k < |toks| && forall j :: 0 <= j < k ==> ValidDimension(Dimension(toks[j]))
  }

  /**
   * When the loop stops at entry n (the dimensions or the tokens ran out,
   * or token n is invalid), the entries it reached are those before n,
   * and n itself when it stored an invalid token there.
   */
  lemma ReachedIff(toks: seq<string>, dims: nat, n: nat)
    requires n <= dims && n <= |toks| && forall j :: 0 <= j < n ==> ValidDimension(Dimension(toks[j]))
    requires n == dims || n == |toks| || !ValidDimension(Dimension(toks[n]))
    ensures forall k: nat :: Reached(toks, dims, k) <==> k < n || (k == n && n < dims && n < |toks|)
  {
  }

  /** After a token, the ones still to come are those after it. */
  lemma RemainingStep(s: string, t: Token)
    requires t.next <= |s|
    ensures Remaining(s, StrTok(s, t.next)) == Remaining(s, Some(t))[1..]
  {
  }

  /** geometry[i] = (uint16_t)atoi(token), and whether that is a valid dimension. */
  method StoreDimension(geometry: array<nat>, i: nat, token: string) returns (valid: bool)
    requires i < geometry.Length
    modifies geometry
    ensures geometry[..] == old(geometry[..])[i := Dimension(token)]
    ensures valid == ValidDimension(Dimension(token))
  {
    geometry[i] := Dimension(token);
    valid := ValidDimension(geometry[i]);
  }

  /**
   * _verify_geometry with SYSTEM_DIMENSIONS as dims: 0 iff the argument is
   * exactly dims valid dimensions; the entries read so far are stored,
   * including an invalid one that stops the loop.
   */
  method VerifyGeometry(arg: string, dims: nat, geometry: array<nat>) returns (rc: int)
    requires dims <= geometry.Length
    modifies geometry
    ensures rc == 0 || rc == -1
    ensures rc == 0 <==> Geometry(arg, dims).Some?
    ensures rc == 0 ==> geometry[..dims] == Geometry(arg, dims).value
    ensures forall k :: 0 <= k < geometry.Length ==>
              geometry[k] == if Reached(TokensFrom(arg, 0), dims, k)
                             then Dimension(TokensFrom(arg, 0)[k]) else old(geometry[k])
  {
    ghost var toks := TokensFrom(arg, 0);
    rc := 0;
    var tok := StrTok(arg, 0);
    var i := 0;
    while i < dims
      invariant i <= dims && i <= |toks|
      invariant tok.Some? ==> tok.value.next <= |arg|
      invariant Remaining(arg, tok) == toks[i..]
      invariant forall j :: 0 <= j < i ==> ValidDimension(Dimension(toks[j]))
      invariant forall k :: 0 <= k < geometry.Length ==>
                  geometry[k] == if k < i then Dimension(toks[k]) else old(geometry[k])
    {
      if tok.None? {
        rc := -1;
        break;
      }
      assert toks[i] == tok.value.text;
      var valid := StoreDimension(geometry, i, tok.value.text);
      if !valid {
        rc := -1;
        break;
      }
      RemainingStep(arg, tok.value);
      tok := StrTok(arg, tok.value.next);
      i := i + 1;
    }
    ReachedIff(toks, dims, i);
    if tok.Some? {
      rc := -1;
    }
    if rc == 0 {
      assert geometry[..dims] == Dimensions(toks);
    }
  }

  /** Dimensions written the way print_geometry writes them: decimal numbers joined by 'x'. */
  function JoinDimensions(g: seq<nat>): string
    requires |g| > 0
  {
    if |g| == 1 then FormatNat(g[0]) else FormatNat(g[0]) + "x" + JoinDimensions(g[1..])
  }

  /** A geometry written out in full is accepted and read back unchanged. */
  lemma GeometryRoundTrip(g: seq<nat>)
    requires |g| > 0 && forall i :: 0 <= i < |g| ==> g[i] < 0x1_0000 && ValidDimension(g[i])
    ensures Geometry(JoinDimensions(g), |g|) == Some(g)
  {
    var toks := TokensFrom(JoinDimensions(g), 0);
    TokensOfJoin(g);
    forall i | 0 <= i < |g|
      ensures Dimension(toks[i]) == g[i]
    {
      DimensionOfNumber(g[i]);
    }
    assert Dimensions(toks) == g;
  }

  lemma DimensionOfNumber(n: nat)
    requires n < 0x1_0000
    ensures Dimension(FormatNat(n)) == n
  {
    StrtolFormatInt(n);
    assert FormatInt(n) == FormatNat(n);
  }

  /**
   * Any number is cut to 16 bits after atoi's conversion to int; beyond
   * LONG_MAX strtol saturates, (int) gives -1, and the dimension is 0xffff.
   */
  lemma DimensionOfLargeNumber(n: nat)
    ensures Dimension(FormatNat(n)) == ToInt32(Saturate(n)) % 0x1_0000
    ensures n > LONG_MAX ==> Dimension(FormatNat(n)) == 0xffff
  {
    AtoiOfNumber(n);
    assert FormatInt(n) == FormatNat(n);
    if n > LONG_MAX {
      assert Saturate(n) == LONG_MAX;
      LongMaxToInt();
      assert (-1) % 0x1_0000 == 0xffff;
    }
  }



  /** (int)LONG_MAX is -1. */
  lemma LongMaxToInt()
    ensures ToInt32(LONG_MAX) == -1
  {
    assert LONG_MAX % 0x1_0000_0000 == 0xffff_ffff;
  }


  /** The tokens of joined dimensions are their decimal forms. */
  lemma {:induction false} TokensOfJoin(g: seq<nat>)
    requires |g| > 0
    ensures |TokensFrom(JoinDimensions(g), 0)| == |g|
    ensures forall i :: 0 <= i < |g| ==> TokensFrom(JoinDimensions(g), 0)[i] == FormatNat(g[i])
  {
    var ds := FormatNat(g[0]);
    NumberHasNoDelim(ds);
    if |g| == 1 {
      assert StrTok(ds, 0) == Some(Token(ds, |ds|)) by {
        TokenEndFrom(ds, 0, |ds|);
        assert ds[0..|ds|] == ds;
      }
      assert TokensFrom(ds, |ds|) == [];
    } else {
      var r := JoinDimensions(g[1..]);
      TokensOfJoin(g[1..]);
      var toks := TokensFrom(JoinDimensions(g), 0);
      assert toks == [ds] + TokensFrom(r, 0) by {
        TokensOfJoinStep(ds, r);
      }
      forall i | 0 <= i < |g|
        ensures toks[i] == FormatNat(g[i])
      {
        if i > 0 {
          assert toks[i] == TokensFrom(r, 0)[i - 1] && g[1..][i - 1] == g[i];
        }
      }
    }
  }

  lemma TokensOfJoinStep(ds: string, r: string)
    requires |ds| > 0 && NoDelim(ds)
    ensures TokensFrom(ds + "x" + r, 0) == [ds] + TokensFrom(r, 0)
  {
    var s := ds + "x" + r;
    assert StrTok(s, 0) == Some(Token(ds, |ds| + 1)) by {
      assert SkipDelims(s, 0) == 0;
      TokenEndFrom(s, 0, |ds|);
      assert s[0..|ds|] == ds;
    }
    TokensShift(ds + "x", r, 0);
  }

  lemma NumberHasNoDelim(ds: string)
    requires AllDigits(ds)
    ensures NoDelim(ds)
  {
    forall k | 0 <= k < |ds|
      ensures !IsGeometryDelim(ds[k])
    {
      assert IsDigit(ds[k]);
    }
  }

  lemma {:induction false} TokenEndFrom(s: string, i: nat, n: nat)
    requires i <= n <= |s| && (forall k :: i <= k < n ==> !IsGeometryDelim(s[k]))
    requires n == |s| || IsGeometryDelim(s[n])
    ensures TokenEnd(s, i) == n
    decreases n - i
  {
    if i < n {
      TokenEndFrom(s, i + 1, n);
    }
  }

  lemma {:induction false} SkipDelimsShift(p: string, r: string, i: nat)
    requires i <= |r|
    ensures SkipDelims(p + r, |p| + i) == |p| + SkipDelims(r, i)
    decreases |r| - i
  {
    if i < |r| {
      assert (p + r)[|p| + i] == r[i];
      SkipDelimsShift(p, r, i + 1);
    }
  }

  lemma {:induction false} TokenEndShift(p: string, r: string, i: nat)
    requires i <= |r|
    ensures TokenEnd(p + r, |p| + i) == |p| + TokenEnd(r, i)
    decreases |r| - i
  {
    if i < |r| {
      assert (p + r)[|p| + i] == r[i];
      TokenEndShift(p, r, i + 1);
    }
  }

  lemma SliceShift(p: string, r: string, b: nat, e: nat)
    requires b <= e <= |r|
    ensures (p + r)[|p| + b..|p| + e] == r[b..e]
  {
    var q := p + r;
    forall k | b <= k < e
      ensures q[|p| + k] == r[k]
    {
    }
  }

  /** Tokens after a prefix do not depend on the prefix. */
  lemma {:induction false} TokensShift(p: string, r: string, i: nat)
    requires i <= |r|
    ensures TokensFrom(p + r, |p| + i) == TokensFrom(r, i)
    decreases |r| - i
  {
    var s := p + r;
    SkipDelimsShift(p, r, i);
    var b := SkipDelims(r, i);
    if b == |r| {
      assert StrTok(s, |p| + i).None? && StrTok(r, i).None?;
    } else {
      TokenEndShift(p, r, b);
      var e := TokenEnd(r, b);
      var next := if e < |r| then e + 1 else e;
      SliceShift(p, r, b, e);
      assert StrTok(r, i) == Some(Token(r[b..e], next));
      assert StrTok(s, |p| + i) == Some(Token(r[b..e], |p| + next));
      TokensShift(p, r, next);
    }
  }

  // ---------------------------------------------------------------------
  // Command names and the search path
  // ---------------------------------------------------------------------

  /** strrchr(s, c): the index of the last c. */
  function LastIndexOf(s: string, c: char): (r: Option<nat>)
    ensures r.Some? ==> r.value < |s| && s[r.value] == c
    ensures r.Some? ==> forall k :: r.value < k < |s| ==> s[k] != c
    ensures r.None? ==> forall k :: 0 <= k < |s| ==> s[k] != c
  {
    if |s| == 0 then None
    else if s[|s| - 1] == c then Some(|s| - 1)
    else LastIndexOf(s[..|s| - 1], c)
  }

  /**
   * _base_name: what follows the last '/', or the whole command when it
   * has none; NULL for a NULL command.
   */
  function BaseName(command: Option<string>): (name: Option<string>)
    ensures name.Some? <==> command.Some?
    ensures name.Some? ==> '/' !in name.value
    ensures name.Some? ==> |name.value| <= |command.value| &&
                           command.value[|command.value| - |name.value|..] == name.value
    ensures name.Some? && |name.value| < |command.value| ==>
              command.value[|command.value| - |name.value| - 1] == '/'
  {
    match command
    case None => None
    case Some(c) =>
      match LastIndexOf(c, '/')
      case None => Some(c)
      case Some(i) => Some(c[i + 1..])
  }

  /** The name of a file in a directory is its base name. */
  lemma BaseNameOfPath(dir: string, name: string)
    requires '/' !in name
    ensures BaseName(Some(dir + "/" + name)) == Some(name)
  {
    var c := dir + "/" + name;
    var i := LastIndexOf(c, '/');
    assert c[|dir|] == '/';
    assert c[|dir| + 1..] == name;
  }

  /**
   * The pieces of s between colons, scanning at c inside a piece that
   * began at lc: what the loop of _create_path_list cuts out.
   */
  function PiecesFrom(s: string, lc: nat, c: nat): seq<string>
    requires lc <= c <= |s|
    decreases |s| - c
  {
    if c == |s| then [s[lc..]]
    else if s[c] == ':' then [s[lc..c]] + PiecesFrom(s, c + 1, c + 1)
    else PiecesFrom(s, lc, c + 1)
  }

  /** All pieces of s between colons, empty ones included. */
  function Pieces(s: string): seq<string>
  {
    PiecesFrom(s, 0, 0)
  }

  /** The non-empty strings of ws, in order. */
  function NonEmpty(ws: seq<string>): (r: seq<string>)
    ensures forall i :: 0 <= i < |r| ==> r[i] != [] && r[i] in ws
  {
    if ws == [] then []
    else if ws[0] == [] then NonEmpty(ws[1..])
    else [ws[0]] + NonEmpty(ws[1..])
  }

  function JoinColon(ws: seq<string>): string
    requires |ws| > 0
  {
    if |ws| == 1 then ws[0] else ws[0] + ":" + JoinColon(ws[1..])
  }

  predicate NoColon(w: string)
  {
    ':' !in w
  }

  /**
   * _create_path_list: the non-empty directories of PATH, in order; NULL
   * when PATH is not set.
   */
  method CreatePathList(path: Option<string>) returns (l: Option<seq<string>>)
    requires path.Some? ==> NoNul(path.value)
    ensures l.Some? <==> path.Some?
    ensures l.Some? ==> l.value == NonEmpty(Pieces(path.value))
  {
    if path.None? {
      return None;
    }
    var p := path.value;
    var entries: seq<string> := [];
    var c := 0;
    var lc := 0;
    while At(p, c) != '\0'
      invariant lc <= c <= |p|
      invariant entries + NonEmpty(PiecesFrom(p, lc, c)) == NonEmpty(Pieces(p))
      decreases |p| - c
    {
      if p[c] == ':' {
        var piece := p[lc..c];
        if |piece| > 0 {
          SeqAppendAssoc(entries, [piece], NonEmpty(PiecesFrom(p, c + 1, c + 1)));
          entries := entries + [piece];
        }
        c := c + 1;
        lc := c;
      } else {
        c := c + 1;
      }
    }
    var piece := p[lc..];
    if |piece| > 0 {
      entries := entries + [piece];
    } else {
      assert entries + [] == entries;
    }
    l := Some(entries);
  }

  /** The directories handed out are non-empty and free of colons. */
  lemma PiecesHaveNoColon(s: string)
    ensures forall i :: 0 <= i < |Pieces(s)| ==> NoColon(Pieces(s)[i])
    ensures forall i :: 0 <= i < |NonEmpty(Pieces(s))| ==>
              NoColon(NonEmpty(Pieces(s))[i]) && NonEmpty(Pieces(s))[i] != []
  {
    PiecesFromNoColon(s, 0, 0);
  }

  lemma {:induction false} PiecesFromNoColon(s: string, lc: nat, c: nat)
    requires lc <= c <= |s| && NoColon(s[lc..c])
    ensures forall i :: 0 <= i < |PiecesFrom(s, lc, c)| ==> NoColon(PiecesFrom(s, lc, c)[i])
    decreases |s| - c
  {
    if c == |s| {
    } else if s[c] == ':' {
      PiecesFromNoColon(s, c + 1, c + 1);
    } else {
      assert s[lc..c + 1] == s[lc..c] + [s[c]];
      PiecesFromNoColon(s, lc, c + 1);
    }
  }

  /** Putting the pieces back together with colons gives the whole string. */
  lemma JoinPieces(s: string)
    ensures |Pieces(s)| > 0 && JoinColon(Pieces(s)) == s
  {
    JoinPiecesFrom(s, 0, 0);
  }

  lemma {:induction false} JoinPiecesFrom(s: string, lc: nat, c: nat)
    requires lc <= c <= |s|
    ensures |PiecesFrom(s, lc, c)| > 0 && JoinColon(PiecesFrom(s, lc, c)) == s[lc..]
    decreases |s| - c
  {
    if c == |s| {
    } else if s[c] == ':' {
      JoinPiecesFrom(s, c + 1, c + 1);
      assert s[lc..] == s[lc..c] + ":" + s[c + 1..];
    } else {
      JoinPiecesFrom(s, lc, c + 1);
    }
  }

  /** Cutting a colon-joined list of colon-free names gives the names back. */
  lemma {:induction false} PiecesJoin(ws: seq<string>)
    requires |ws| > 0 && forall i :: 0 <= i < |ws| ==> NoColon(ws[i])
    ensures Pieces(JoinColon(ws)) == ws
  {
    var s := JoinColon(ws);
    if |ws| == 1 {
      PiecesWithin(s, 0, 0);
      assert s[0..] == s;
    } else {
      var r := JoinColon(ws[1..]);
      PiecesJoin(ws[1..]);
      assert s == ws[0] + ":" + r;
      PiecesUpToColon(ws[0], r, 0);
      PiecesShift(ws[0] + ":", r, 0, 0);
    }
  }

  /** A piece without a colon runs to the end. */
  lemma {:induction false} PiecesWithin(s: string, lc: nat, c: nat)
    requires lc <= c <= |s| && NoColon(s[c..])
    ensures PiecesFrom(s, lc, c) == [s[lc..]]
    decreases |s| - c
  {
    if c < |s| {
      assert s[c] == s[c..][0];
      assert s[c + 1..] == s[c..][1..];
      PiecesWithin(s, lc, c + 1);
    }
  }

  /** The first piece of w + ":" + r is w. */
  lemma {:induction false} PiecesUpToColon(w: string, r: string, c: nat)
    requires NoColon(w) && c <= |w|
    ensures PiecesFrom(w + ":" + r, 0, c) == [w] + PiecesFrom(w + ":" + r, |w| + 1, |w| + 1)
    decreases |w| - c
  {
    var s := w + ":" + r;
    if c == |w| {
      assert s[c] == ':' && s[0..c] == w;
    } else {
      assert s[c] == w[c];
      PiecesUpToColon(w, r, c + 1);
    }
  }

  /** Pieces of the part after a prefix do not depend on the prefix. */
  lemma {:induction false} PiecesShift(p: string, r: string, lc: nat, c: nat)
    requires lc <= c <= |r|
    ensures PiecesFrom(p + r, |p| + lc, |p| + c) == PiecesFrom(r, lc, c)
    decreases |r| - c
  {
    var s := p + r;
    if c == |r| {
      SliceShift(p, r, lc, c);
      assert s[|p| + lc..] == s[|p| + lc..|p| + c] && r[lc..] == r[lc..c];
    } else {
      assert s[|p| + c] == r[c];
      if r[c] == ':' {
        SliceShift(p, r, lc, c);
        PiecesShift(p, r, c + 1, c + 1);
      } else {
        PiecesShift(p, r, lc, c + 1);
      }
    }
  }

  /** A PATH written from non-empty colon-free directories is split back into them. */
  lemma PathListRoundTrip(ws: seq<string>)
    requires |ws| > 0 && forall i :: 0 <= i < |ws| ==> NoColon(ws[i]) && ws[i] != []
    ensures NonEmpty(Pieces(JoinColon(ws))) == ws
  {
    PiecesJoin(ws);
    NonEmptyKeeps(ws);
  }

  lemma {:induction false} NonEmptyKeeps(ws: seq<string>)
    requires forall i :: 0 <= i < |ws| ==> ws[i] != []
    ensures NonEmpty(ws) == ws
  {
    if ws != [] {
      NonEmptyKeeps(ws[1..]);
    }
  }
}
