/**
 * The --cpu_bind and --mem_bind arguments of sbatch. Both are read the
 * same way: an optional "quiet"/"q" and "verbose"/"v" prefix and a comma,
 * then an affinity keyword that may be followed by ",q" or ",v", and after
 * the first ':' (or else the first '=') a list of CPUs or masks. The
 * keyword selects one binding type; the verbose flag is a separate bit.
 */
module SbatchBind {
  import opened CLib

  /** What the shared first half of _verify_cpu_bind and _verify_mem_bind extracts. */
  datatype BindArg = BindArg(verbose: bool, affinity: Option<string>, mapping: Option<string>)

  predicate IsQ(c: char)
  {
    c == 'q' || c == 'Q'
  }

  predicate IsV(c: char)
  {
    c == 'v' || c == 'V'
  }

  /** Where the "quiet" or "q" prefix ends. */
  function QuietEnd(arg: string): (q: nat)
    requires NoNul(arg)
    ensures q <= |arg|
  {
    if NCaseEq(arg, "quiet", 5) then
      NCaseEqFromLong(arg, "quiet", 0, 5);
      5
    else if IsQ(At(arg, 0)) then 1
    else 0
  }

  /** Where the "verbose" or "v" prefix that may follow position q ends. */
  function VerboseEnd(arg: string, q: nat): (v: nat)
    requires NoNul(arg) && q <= |arg|
    ensures q <= v <= |arg|
  {
    if NCaseEq(arg[q..], "verbose", 7) then
      NCaseEqFromLong(arg[q..], "verbose", 0, 7);
      q + 7
    else if IsV(At(arg, q)) then q + 1
    else q
  }

  /** Where the affinity keyword starts: after the prefixes and one comma. */
  function AffinityStart(arg: string): (pos: nat)
    requires NoNul(arg)
    ensures pos <= |arg|
  {
    var v := VerboseEnd(arg, QuietEnd(arg));
    if At(arg, v) == ',' then v + 1 else v
  }

  /** strstr(s + from, p1), or when that fails strstr(s + from, p2). */
  function FindEither(s: string, from: nat, p1: string, p2: string): (r: Option<nat>)
    requires |p1| == 2 && |p2| == 2 && NoNul(p1) && NoNul(p2)
    ensures r.Some? ==> r.value + 2 <= |s|
  {
    match StrStr(s, from, p1)
    case None => StrStr(s, from, p2)
    case Some(i) => Some(i)
  }

  /** The first ':' of the argument, or else its first '='. */
  function MapPos(arg: string): (r: Option<nat>)
    ensures r.Some? ==> r.value < |arg|
  {
    match StrChr(arg, ':')
    case None => StrChr(arg, '=')
    case Some(i) => Some(i)
  }

  /** A NUL written over index p of a buffer, when p is a position in it. */
  function Cut(s: string, p: Option<nat>): (r: string)
    ensures |r| == |s|
    ensures p.Some? && p.value < |s| ==> r[p.value] == '\0'
    ensures forall k :: 0 <= k < |s| && (p.None? || k != p.value) ==> r[k] == s[k]
  {
    if p.Some? && p.value < |s| then s[p.value := '\0'] else s
  }

  /** Where ",q" or ",Q" is cut off, when a keyword follows the prefixes. */
  function QuietFlag(arg: string): Option<nat>
    requires NoNul(arg)
  {
    var pos := AffinityStart(arg);
    if pos < |arg| then FindEither(arg, pos, ",q", ",Q") else None
  }

  /** Where ",v" or ",V" is cut off, searched for after the ",q" cut. */
  function VerboseFlag(arg: string): Option<nat>
    requires NoNul(arg)
  {
    var pos := AffinityStart(arg);
    if pos < |arg| then FindEither(Cut(arg, QuietFlag(arg)), pos, ",v", ",V") else None
  }

  /** The buffer once every NUL is written: after ",q", after ",v" and over the ':' or '='. */
  function CutBuffer(arg: string): (buf: string)
    requires NoNul(arg)
    ensures |buf| == |arg|
  {
    Cut(Cut(Cut(arg, QuietFlag(arg)), VerboseFlag(arg)), MapPos(arg))
  }

  /**
   * The parse of a binding argument. A ",q" after the keyword turns the
   * verbose flag off and a ",v" (looked for after that) turns it on; each
   * is cut off by writing a NUL over its comma, as is the ':' or '='
   * before the list, so the keyword is what is left before the first NUL.
   */
  function BindArgOf(arg: string): BindArg
    requires NoNul(arg)
  {
    var pos := AffinityStart(arg);
    var buf := CutBuffer(arg);
    var mappos := MapPos(arg);
    BindArg(if VerboseFlag(arg).Some? then true
            else if QuietFlag(arg).Some? then false
            else VerboseEnd(arg, QuietEnd(arg)) > QuietEnd(arg),
            if pos < |arg| then Some(CStrAt(buf, pos)) else None,
            if mappos.Some? then Some(CStrAt(buf, mappos.value + 1)) else None)
  }

  /**
   * The first steps of both parsers: the "quiet"/"q" and "verbose"/"v"
   * prefixes and the comma after them, and the verbose flag they leave.
   */
  method SkipPrefixes(buf: string) returns (pos: nat, verbose: bool)
    requires NoNul(buf)
    ensures pos == AffinityStart(buf)
    ensures verbose <==> VerboseEnd(buf, QuietEnd(buf)) > QuietEnd(buf)
  {
    pos := 0;
    verbose := false;
    if NCaseEq(buf, "quiet", 5) {
      NCaseEqFromLong(buf, "quiet", 0, 5);
      verbose := false;
      pos := pos + 5;
    } else if IsQ(At(buf, pos)) {
      verbose := false;
      pos := pos + 1;
    }
    assert pos == QuietEnd(buf);
    if NCaseEq(buf[pos..], "verbose", 7) {
      NCaseEqFromLong(buf[pos..], "verbose", 0, 7);
      verbose := true;
      pos := pos + 7;
    } else if IsV(At(buf, pos)) {
      verbose := true;
      pos := pos + 1;
    }
    if At(buf, pos) == ',' {
      pos := pos + 1;
    }
  }

  /**
   * The ",q" and ",v" suffixes after the keyword that starts at pos: each
   * found one is cut off with a NUL and sets the verbose flag, the ",v"
   * search running over the buffer the ",q" cut left.
   */
  method CutSuffixes(arg: string, pos: nat, verbose: bool) returns (buf: string, flag: bool)
    requires NoNul(arg) && pos == AffinityStart(arg) && pos < |arg|
    ensures buf == Cut(Cut(arg, QuietFlag(arg)), VerboseFlag(arg))
    ensures flag == if VerboseFlag(arg).Some? then true else if QuietFlag(arg).Some? then false else verbose
  {
    buf := arg;
    flag := verbose;
    var vpos := StrStr(buf, pos, ",q");
    if vpos.None? {
      vpos := StrStr(buf, pos, ",Q");
    }
    assert vpos == QuietFlag(arg);
    if vpos.Some? {
      buf := buf[vpos.value := '\0'];
      flag := false;
    }
    assert buf == Cut(arg, QuietFlag(arg));
    vpos := StrStr(buf, pos, ",v");
    if vpos.None? {
      vpos := StrStr(buf, pos, ",V");
    }
    assert vpos == VerboseFlag(arg);
    if vpos.Some? {
      buf := buf[vpos.value := '\0'];
      flag := true;
    }
  }

  /** The prefixes, then the suffixes after the keyword when there is one. */
  method CutFlags(arg: string) returns (buf: string, verbose: bool, affinity: Option<nat>)
    requires NoNul(arg)
    ensures buf == Cut(Cut(arg, QuietFlag(arg)), VerboseFlag(arg))
    ensures verbose == BindArgOf(arg).verbose
    ensures affinity.Some? <==> AffinityStart(arg) < |arg|
    ensures affinity.Some? ==> affinity.value == AffinityStart(arg)
  {
    buf := arg;
    affinity := None;
    var pos;
    pos, verbose := SkipPrefixes(buf);
    if pos < |buf| {
      affinity := Some(pos);
      buf, verbose := CutSuffixes(buf, pos, verbose);
    } else {
      assert QuietFlag(arg).None? && VerboseFlag(arg).None?;
    }
  }

  /**
   * The parsing half shared by _verify_cpu_bind and _verify_mem_bind: a
   * copy of the argument is cut up in place by writing NULs into it.
   */
  method SplitBindArg(arg: string) returns (b: BindArg)
    requires NoNul(arg)
    ensures b == BindArgOf(arg)
  {
    var buf := arg;
    b := BindArg(false, None, None);
    if |buf| > 0 {
      var affinity: Option<nat>;
      var mappos := StrChr(buf, ':');
      if mappos.None? {
        mappos := StrChr(buf, '=');
      }
      assert mappos == MapPos(arg);
      var verbose;
      buf, verbose, affinity := CutFlags(buf);
      var mapping: Option<nat> := None;
      if mappos.Some? {
        buf := buf[mappos.value := '\0'];
        mapping := Some(mappos.value + 1);
      }
      assert buf == CutBuffer(arg);
      b := BindArg(verbose,
                   if affinity.Some? then Some(CStrAt(buf, affinity.value)) else None,
                   if mapping.Some? then Some(CStrAt(buf, mapping.value)) else None);
    } else {
      assert AffinityStart(arg) == 0 && MapPos(arg).None?;
    }
  }

  /** What _verify_cpu_bind and _verify_mem_bind return and leave in their out-parameters. */
  datatype BindResult = BindResult(rc: int, bind: Option<string>, bindType: bv32)

  /** The verbose bit, the same in cpu_bind_type_t and mem_bind_type_t. */
  const VERBOSE_BIT: bv32 := 0x01

  // cpu_bind_type_t
  const CPU_BIND_VERBOSE: bv32 := VERBOSE_BIT
  const CPU_BIND_NONE: bv32 := 0x02
  const CPU_BIND_RANK: bv32 := 0x04
  const CPU_BIND_MAPCPU: bv32 := 0x08
  const CPU_BIND_MASKCPU: bv32 := 0x10

  // mem_bind_type_t
  const MEM_BIND_VERBOSE: bv32 := VERBOSE_BIT
  const MEM_BIND_NONE: bv32 := 0x02
  const MEM_BIND_RANK: bv32 := 0x04
  const MEM_BIND_MAPCPU: bv32 := 0x08
  const MEM_BIND_MASKCPU: bv32 := 0x10
  const MEM_BIND_LOCAL: bv32 := 0x20

  /** The binding type a --cpu_bind keyword selects, compared without regard to case. */
  function CpuAffinity(a: string): Option<bv32>
  {
    if CaseEq(a, "no") || CaseEq(a, "none") then Some(CPU_BIND_NONE)
    else if CaseEq(a, "rank") then Some(CPU_BIND_RANK)
    else if CaseEq(a, "map_cpu") || CaseEq(a, "mapcpu") then Some(CPU_BIND_MAPCPU)
    else if CaseEq(a, "mask_cpu") || CaseEq(a, "maskcpu") then Some(CPU_BIND_MASKCPU)
    else None
  }

  /** The binding type a --mem_bind keyword selects. */
  function MemAffinity(a: string): Option<bv32>
  {
    if CaseEq(a, "no") || CaseEq(a, "none") then Some(MEM_BIND_NONE)
    else if CaseEq(a, "rank") then Some(MEM_BIND_RANK)
    else if CaseEq(a, "local") then Some(MEM_BIND_LOCAL)
    else if CaseEq(a, "map_mem") || CaseEq(a, "mapmem") then Some(MEM_BIND_MAPCPU)
    else if CaseEq(a, "mask_mem") || CaseEq(a, "maskmem") then Some(MEM_BIND_MASKCPU)
    else None
  }

  /**
   * The binding type after an argument: the verbose flag sets the verbose
   * bit; a keyword (keyword is true) first clears every bit but the
   * verbose one and then sets its own, or none when it is unknown.
   */
  function NewBindType(verbose: bool, keyword: bool, selected: Option<bv32>, bindType: bv32): bv32
  {
    var type1 := if verbose then bindType | VERBOSE_BIT else bindType;
    if !keyword then type1
    else if selected.Some? then (type1 & VERBOSE_BIT) | selected.value
    else type1 & VERBOSE_BIT
  }

  /** The verbose bit is kept, and set when the argument asks for it. */
  lemma NewBindTypeVerbose(verbose: bool, keyword: bool, selected: Option<bv32>, bindType: bv32)
    requires selected.Some? ==> selected.value & VERBOSE_BIT == 0
    ensures NewBindType(verbose, keyword, selected, bindType) & VERBOSE_BIT
         == (bindType & VERBOSE_BIT) | (if verbose then VERBOSE_BIT else 0)
  {
  }

  /** Without a keyword, every other bit is kept. */
  lemma NewBindTypeKeeps(verbose: bool, selected: Option<bv32>, bindType: bv32)
    ensures NewBindType(verbose, false, selected, bindType) & !VERBOSE_BIT == bindType & !VERBOSE_BIT
  {
    if verbose {
      assert NewBindType(verbose, false, selected, bindType) == bindType | VERBOSE_BIT;
      SetVerboseKeepsOthers(bindType);
    } else {
      assert NewBindType(verbose, false, selected, bindType) == bindType;
    }
  }

  lemma SetVerboseKeepsOthers(t: bv32)
    ensures (t | VERBOSE_BIT) & !VERBOSE_BIT == t & !VERBOSE_BIT
  {
  }

  /** A known keyword replaces every other bit by its own. */
  lemma NewBindTypeSelects(verbose: bool, bit: bv32, bindType: bv32)
    requires bit & VERBOSE_BIT == 0
    ensures NewBindType(verbose, true, Some(bit), bindType) & !VERBOSE_BIT == bit
  {
  }

  /**
   * The second half of both parsers, given the bit the keyword selects
   * (None for an unknown keyword): a list replaces the old one and the
   * binding type changes as NewBindType says. An unknown keyword returns
   * 1, though the comment above both functions promises -1, and what was
   * already written stays written.
   */
  function ApplyBind(b: BindArg, selected: Option<bv32>, bind: Option<string>, bindType: bv32): (r: BindResult)
    ensures r.rc == 0 || r.rc == 1
    ensures r.rc == 1 <==> b.affinity.Some? && selected.None?
    ensures r.bind == if b.mapping.Some? then b.mapping else bind
  {
    BindResult(if b.affinity.Some? && selected.None? then 1 else 0,
               if b.mapping.Some? then b.mapping else bind,
               NewBindType(b.verbose, b.affinity.Some?, selected, bindType))
  }

  /** The bit a keyword selects, if the argument names one. */
  function Selected(b: BindArg, table: string -> Option<bv32>): Option<bv32>
  {
    if b.affinity.Some? then table(b.affinity.value) else None
  }

  function CpuBindOf(arg: string, bind: Option<string>, bindType: bv32): BindResult
    requires NoNul(arg)
  {
    var b := BindArgOf(arg);
    ApplyBind(b, Selected(b, CpuAffinity), bind, bindType)
  }

  function MemBindOf(arg: string, bind: Option<string>, bindType: bv32): BindResult
    requires NoNul(arg)
  {
    var b := BindArgOf(arg);
    ApplyBind(b, Selected(b, MemAffinity), bind, bindType)
  }

  /** _verify_cpu_bind: cpuBind and cpuBindType are the values behind its two pointers. */
  method VerifyCpuBind(arg: string, cpuBind: Option<string>, cpuBindType: bv32)
    returns (rc: int, newBind: Option<string>, newType: bv32)
    requires NoNul(arg)
    ensures BindResult(rc, newBind, newType) == CpuBindOf(arg, cpuBind, cpuBindType)
  {
    var b := SplitBindArg(arg);
    var r := ApplyBind(b, Selected(b, CpuAffinity), cpuBind, cpuBindType);
    rc, newBind, newType := r.rc, r.bind, r.bindType;
  }

  /** _verify_mem_bind, with "local" as one more keyword. */
  method VerifyMemBind(arg: string, memBind: Option<string>, memBindType: bv32)
    returns (rc: int, newBind: Option<string>, newType: bv32)
    requires NoNul(arg)
    ensures BindResult(rc, newBind, newType) == MemBindOf(arg, memBind, memBindType)
  {
    var b := SplitBindArg(arg);
    var r := ApplyBind(b, Selected(b, MemAffinity), memBind, memBindType);
    rc, newBind, newType := r.rc, r.bind, r.bindType;
  }

  /** A keyword with no q, v, comma, ':' or '=' in it. */
  predicate PlainKeyword(kw: string)
  {
    |kw| > 0 && NoNul(kw) &&
    forall k :: 0 <= k < |kw| ==> !IsQ(kw[k]) && !IsV(kw[k]) && kw[k] != ',' && kw[k] != ':' && kw[k] != '='
  }

  /** A list of CPUs or masks: no NUL and no q or v. */
  predicate PlainList(m: string)
  {
    NoNul(m) && forall k :: 0 <= k < |m| ==> !IsQ(m[k]) && !IsV(m[k])
  }

  lemma PlainHasNoPrefix(arg: string)
    requires NoNul(arg) && |arg| > 0 && !IsQ(arg[0]) && !IsV(arg[0]) && arg[0] != ','
    ensures QuietEnd(arg) == 0 && VerboseEnd(arg, 0) == 0 && AffinityStart(arg) == 0
  {
    assert ToLower(At(arg, 0)) != ToLower(At("quiet", 0));
    assert arg[0..] == arg;
    assert ToLower(At(arg, 0)) != ToLower(At("verbose", 0));
  }

  /** The C strings on either side of a NUL written between two NUL-free strings. */
  lemma CStrAtCut(a: string, b: string)
    requires NoNul(a) && NoNul(b)
    ensures |a| > 0 ==> CStrAt(a + ['\0'] + b, 0) == a
    ensures CStrAt(a + ['\0'] + b, |a| + 1) == b
  {
    var s := a + ['\0'] + b;
    CStrEndAt(s, 0, |a|);
    assert s[0..|a|] == a;
    CStrEndAt(s, |a| + 1, |s|);
    assert s[|a| + 1..|s|] == b;
  }

  /** What "keyword:list" holds: no NUL, no q or v, and its first ':' right after the keyword. */
  lemma KeywordWithListChars(kw: string, m: string)
    requires PlainKeyword(kw) && PlainList(m)
    ensures var arg := kw + ":" + m;
      NoNul(arg) && (forall k :: 0 <= k < |arg| ==> !IsQ(arg[k]) && !IsV(arg[k])) &&
      StrChr(arg, ':') == Some(|kw|)
  {
    var arg := kw + ":" + m;
    forall k | 0 <= k < |arg| ensures arg[k] != '\0' && !IsQ(arg[k]) && !IsV(arg[k])
    {
      if k < |kw| { assert arg[k] == kw[k]; } else if k > |kw| { assert arg[k] == m[k - |kw| - 1]; }
    }
    assert arg[|kw|] == ':';
    assert forall k :: 0 <= k < |kw| ==> arg[k] == kw[k];
  }

  /** "keyword:list" names the keyword and the list, with no verbose flag. */
  lemma KeywordWithList(kw: string, m: string)
    requires PlainKeyword(kw) && PlainList(m)
    ensures BindArgOf(kw + ":" + m) == BindArg(false, Some(kw), Some(m))
  {
    var arg := kw + ":" + m;
    KeywordWithListChars(kw, m);
    assert arg[0] == kw[0];
    PlainHasNoPrefix(arg);
    StrStrAbsent(arg, 0, ",q");
    StrStrAbsent(arg, 0, ",Q");
    StrStrAbsent(arg, 0, ",v");
    StrStrAbsent(arg, 0, ",V");
    assert CutBuffer(arg) == kw + ['\0'] + m;
    CStrAtCut(kw, m);
  }

  /** "keyword,v" names the keyword and turns the verbose flag on. */
  lemma KeywordVerbose(kw: string)
    requires PlainKeyword(kw)
    ensures BindArgOf(kw + ",v") == BindArg(true, Some(kw), None)
  {
    var arg := kw + ",v";
    assert arg[0] == kw[0];
    assert NoNul(arg) by {
      forall k | 0 <= k < |arg| ensures arg[k] != '\0' {
        if k < |kw| { assert arg[k] == kw[k]; }
      }
    }
    PlainHasNoPrefix(arg);
    forall k | 0 <= k < |arg| ensures !IsQ(arg[k]) && arg[k] != ':' && arg[k] != '='
    {
      if k < |kw| { assert arg[k] == kw[k]; }
    }
    StrStrAbsent(arg, 0, ",q");
    StrStrAbsent(arg, 0, ",Q");
    assert StrChr(arg, ':') == None;
    assert StrChr(arg, '=') == None;
    VerboseFoundAtEnd(kw);
    assert arg[|kw| := '\0'] == kw + ['\0'] + "v";
    CStrAtCut(kw, "v");
  }

  lemma VerboseFoundAtEnd(kw: string)
    requires PlainKeyword(kw)
    ensures StrStr(kw + ",v", 0, ",v") == Some(|kw|)
  {
    var s := kw + ",v";
    StrStrBefore(s, 0, |kw|);
    assert s[|kw|..|kw| + 2] == ",v";
  }

  lemma {:induction false} StrStrBefore(s: string, from: nat, at: nat)
    requires from <= at && at + 2 == |s| && s[at..] == ",v"
    requires forall k :: from <= k < at ==> s[k] != '\0' && s[k] != ',' && s[k] != 'v'
    ensures StrStr(s, from, ",v") == Some(at)
    decreases at - from
  {
    if from < at {
      assert s[from..from + 2][0] == s[from];
      StrStrBefore(s, from + 1, at);
    } else {
      assert s[from..from + 2] == s[at..];
    }
  }

  /** --cpu_bind=map_cpu:<list> selects MAPCPU, keeps only the verbose bit of the old type, and takes the list. */
  lemma MapCpuList(m: string, bind: Option<string>, bindType: bv32)
    requires PlainList(m)
    ensures CpuBindOf("map_cpu:" + m, bind, bindType)
         == BindResult(0, Some(m), (bindType & CPU_BIND_VERBOSE) | CPU_BIND_MAPCPU)
  {
    assert "map_cpu:" + m == "map_cpu" + ":" + m;
    KeywordWithList("map_cpu", m);
    assert CpuAffinity("map_cpu") == Some(CPU_BIND_MAPCPU);
  }

  /** --mem_bind=local,v selects LOCAL and sets the verbose bit. */
  lemma MemLocalVerbose(bind: Option<string>, bindType: bv32)
    ensures MemBindOf("local,v", bind, bindType)
         == BindResult(0, bind, (bindType & MEM_BIND_VERBOSE) | MEM_BIND_VERBOSE | MEM_BIND_LOCAL)
  {
    assert "local,v" == "local" + ",v";
    KeywordVerbose("local");
    assert MemAffinity("local") == Some(MEM_BIND_LOCAL);
  }

  /** An unknown keyword returns 1, never the -1 the comment documents. */
  lemma UnknownKeywordReturnsOne(kw: string, bind: Option<string>, bindType: bv32)
    requires PlainKeyword(kw) && CpuAffinity(kw).None?
    ensures CpuBindOf(kw + ",v", bind, bindType).rc == 1
  {
    KeywordVerbose(kw);
  }
}
