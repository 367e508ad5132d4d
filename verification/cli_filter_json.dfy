/**
 * The JSON the cli_filter plugins hand to their scripts: the string escaper,
 * the document of all readable options of a job, and the document of the
 * environment. The escaper is related to the string grammar of RFC 7159
 * (section 7) and to a decoder of that grammar.
 */
module CliFilterJson {
  import opened CLib
  import opened CliFilterTable

  /** Escaping stops once the output has reached this many characters. */
  const MAX_STR_LEN: nat := 524288

  /** What _json_escape writes for one input character. */
  function EscapeChar(c: char): (t: string)
    ensures 1 <= |t| <= 6
  {
    match c
    case '\\' => "\\\\"
    case '"' => "\\\""
    case '\n' => "\\n"
    case '\U{08}' => "\\b"
    case '\U{0C}' => "\\f"
    case '\r' => "\\r"
    case '\t' => "\\t"
    case '<' => "\\u003C"
    case '/' => "\\/"
    case _ => [c]
  }

  /** The escaped form of a whole string, without the length cap. */
  function Escape(s: string): string
  {
    if s == [] then "" else EscapeChar(s[0]) + Escape(s[1..])
  }

  lemma {:induction false} EscapeAppend(a: string, b: string)
    ensures Escape(a + b) == Escape(a) + Escape(b)
  {
    if a == [] {
      assert a + b == b;
    } else {
      assert (a + b)[0] == a[0];
      assert (a + b)[1..] == a[1..] + b;
      EscapeAppend(a[1..], b);
    }
  }

  lemma EscapeSnoc(s: string, i: nat)
    requires i < |s|
    ensures Escape(s[..i + 1]) == Escape(s[..i]) + EscapeChar(s[i])
  {
    assert s[..i + 1] == s[..i] + [s[i]];
    EscapeAppend(s[..i], [s[i]]);
  }

  /** Every input character adds at least one and at most six output characters. */
  lemma {:induction false} EscapeLength(s: string)
    ensures |s| <= |Escape(s)| <= 6 * |s|
  {
    if s != [] {
      EscapeLength(s[1..]);
    }
  }

  /**
   * The number of input characters _json_escape consumes: it stops before a
   * character once the output holds MAX_STR_LEN characters or more.
   */
  function StopFrom(s: string, i: nat): (r: nat)
    requires i <= |s|
    ensures i <= r <= |s|
    decreases |s| - i
  {
    if i == |s| || |Escape(s[..i])| >= MAX_STR_LEN then i else StopFrom(s, i + 1)
  }

  /** Escaping stops at the first point where the output has reached the cap. */
  lemma {:induction false} StopFromIsFirst(s: string, i: nat)
    requires i <= |s|
    ensures var r := StopFrom(s, i);
            (r == |s| || |Escape(s[..r])| >= MAX_STR_LEN) &&
            forall j :: i <= j < r ==> |Escape(s[..j])| < MAX_STR_LEN
    decreases |s| - i
  {
    if i < |s| && |Escape(s[..i])| < MAX_STR_LEN {
      StopFromIsFirst(s, i + 1);
    }
  }

  /** The result of _json_escape: the escaped form of the prefix consumed before the cap. */
  function EscapeCapped(s: string): string
  {
    Escape(s[..StopFrom(s, 0)])
  }

  /** _json_escape */
  method JsonEscape(str: string) returns (ret: string)
    ensures ret == EscapeCapped(str)
  {
    ret := "";
    var i := 0;
    while i < |str|
      invariant 0 <= i <= |str|
      invariant ret == Escape(str[..i])
      invariant StopFrom(str, 0) == StopFrom(str, i)
    {
      if |ret| >= MAX_STR_LEN {
        break;
      }
      EscapeSnoc(str, i);
      ret := ret + EscapeChar(str[i]);
      i := i + 1;
    }
  }

  /** The cap overshoots MAX_STR_LEN by at most one escape sequence. */
  lemma CappedLength(s: string)
    ensures |EscapeCapped(s)| < MAX_STR_LEN + 6
  {
    var k := StopFrom(s, 0);
    StopFromIsFirst(s, 0);
    if k > 0 {
      EscapeSnoc(s, k - 1);
    }
  }

  lemma {:induction false} EscapePrefixShorter(s: string, j: nat)
    requires j <= |s|
    ensures |Escape(s[..j])| + (|s| - j) <= |Escape(s)|
  {
    assert s == s[..j] + s[j..];
    EscapeAppend(s[..j], s[j..]);
    EscapeLength(s[j..]);
  }

  /** A string whose escaped form fits in MAX_STR_LEN is escaped whole. */
  lemma {:induction false} CappedIsWholeWhenShort(s: string)
    requires |Escape(s)| <= MAX_STR_LEN
    ensures EscapeCapped(s) == Escape(s)
  {
    var k := StopFrom(s, 0);
    StopFromIsFirst(s, 0);
    if k < |s| {
      EscapePrefixShorter(s, k);
      assert false;
    }
    assert s[..k] == s;
  }

  /** A character that may appear unescaped in a JSON string. */
  predicate Unescaped(c: char)
  {
    c != '\\' && c != '"' && c as int >= 0x20
  }

  predicate IsHex(c: char)
  {
    '0' <= c <= '9' || 'a' <= c <= 'f' || 'A' <= c <= 'F'
  }

  function HexDigit(c: char): (d: nat)
    requires IsHex(c)
    ensures d < 16
  {
    if '0' <= c <= '9' then c as int - '0' as int
    else if 'a' <= c <= 'f' then c as int - 'a' as int + 10
    else c as int - 'A' as int + 10
  }

  /** The character a two-character escape stands for (RFC 7159 section 7). */
  function ShortEscape(c: char): Option<char>
  {
    match c
    case '"' => Some('"')
    case '\\' => Some('\\')
    case '/' => Some('/')
    case 'b' => Some('\U{08}')
    case 'f' => Some('\U{0C}')
    case 'n' => Some('\n')
    case 'r' => Some('\r')
    case 't' => Some('\t')
    case _ => None
  }

  /** The body of a JSON string (between the quotes), as RFC 7159 section 7 defines it. */
  predicate JsonStringBody(t: string)
    decreases |t|
  {
    if t == [] then true
    else if t[0] == '\\' then
      |t| >= 2 &&
      ((ShortEscape(t[1]).Some? && JsonStringBody(t[2..])) ||
       (t[1] == 'u' && |t| >= 6 && IsHex(t[2]) && IsHex(t[3]) && IsHex(t[4]) && IsHex(t[5]) &&
        JsonStringBody(t[6..])))
    else Unescaped(t[0]) && JsonStringBody(t[1..])
  }

  /** A character _json_escape turns into valid JSON: all but five control characters are left raw. */
  predicate Representable(c: char)
  {
    c as int >= 0x20 || c == '\U{08}' || c == '\U{0C}' || c == '\n' || c == '\r' || c == '\t'
  }

  lemma EscapeCharBody(c: char, rest: string)
    ensures JsonStringBody(EscapeChar(c) + rest) <==> Representable(c) && JsonStringBody(rest)
  {
    var t := EscapeChar(c) + rest;
    if |EscapeChar(c)| == 2 {
      assert t[2..] == rest;
    } else if c == '<' {
      assert t[6..] == rest;
    } else {
      assert t[1..] == rest;
    }
  }

  /**
   * _json_escape yields a valid JSON string body exactly when the input
   * holds no control character other than backspace, form feed, newline,
   * carriage return and tab.
   */
  lemma {:induction false} EscapeIsJsonString(s: string)
    ensures JsonStringBody(Escape(s)) <==> forall i :: 0 <= i < |s| ==> Representable(s[i])
  {
    if s != [] {
      EscapeCharBody(s[0], Escape(s[1..]));
      EscapeIsJsonString(s[1..]);
      assert forall i :: 1 <= i < |s| ==> s[i] == s[1..][i - 1];
    }
  }

  function Cons(c: char, r: Option<string>): Option<string>
  {
    if r.None? then None else Some([c] + r.value)
  }

  /** The code unit four hex digits name, most significant first. */
  function Hex4(a: char, b: char, c: char, d: char): (v: nat)
    requires IsHex(a) && IsHex(b) && IsHex(c) && IsHex(d)
    ensures v < 0x1_0000
  {
    var hi := HexDigit(a) * 16 + HexDigit(b);
    assert hi < 256;
    var mid := hi * 16 + HexDigit(c);
    assert mid < 4096;
    mid * 16 + HexDigit(d)
  }

  /**
   * A decoder of JSON string bodies: None on a malformed escape or on a
   * \u escape naming a surrogate (surrogate pairs are not decoded).
   */
  function Unescape(t: string): Option<string>
    decreases |t|
  {
    if t == [] then Some("")
    else if t[0] != '\\' then Cons(t[0], Unescape(t[1..]))
    else if |t| < 2 then None
    else if t[1] == 'u' then
      if |t| >= 6 && IsHex(t[2]) && IsHex(t[3]) && IsHex(t[4]) && IsHex(t[5]) then
        var v := Hex4(t[2], t[3], t[4], t[5]);
        if 0xD800 <= v < 0xE000 then None else Cons(v as char, Unescape(t[6..]))
      else None
    else if ShortEscape(t[1]).Some? then Cons(ShortEscape(t[1]).value, Unescape(t[2..]))
    else None
  }

  lemma UnescapeChar(c: char, rest: string)
    ensures Unescape(EscapeChar(c) + rest) == Cons(c, Unescape(rest))
  {
    var t := EscapeChar(c) + rest;
    if |EscapeChar(c)| == 2 {
      assert t[2..] == rest;
    } else if c == '<' {
      assert t[2..6] == "003C";
      assert t[6..] == rest;
    } else {
      assert t[1..] == rest;
    }
  }

  /** Decoding what _json_escape wrote gives back the original string. */
  lemma {:induction false} UnescapeEscape(s: string)
    ensures Unescape(Escape(s)) == Some(s)
  {
    if s != [] {
      UnescapeChar(s[0], Escape(s[1..]));
      UnescapeEscape(s[1..]);
      assert [s[0]] + s[1..] == s;
    }
  }

  /** A member of the job document: the option name and its escaped value, quoted. */
  function Member(name: string, esc: string): string
  {
    ",\"" + name + "\":\"" + esc + "\""
  }

  /** The member a table entry contributes to the job document, if it reads a value. */
  function Pair(name: string, v: Option<string>): string
  {
    if v.None? then "" else Member(name, EscapeCapped(v.value))
  }

  /** What cli_si_get returns for each entry's name, in table order. */
  function Readings(entries: seq<StringOption>, data: Option<map<string, Value>>, clientId: int, tables: ClientTables)
    : (vs: seq<Option<string>>)
    requires Readable(data, clientId, tables)
    ensures |vs| == |entries|
    ensures forall i :: 0 <= i < |vs| ==> vs[i] == Get(Some(entries[i].name), data, clientId, tables)
  {
    if entries == [] then []
    else
      Readings(entries[..|entries| - 1], data, clientId, tables) +
      [Get(Some(entries[|entries| - 1].name), data, clientId, tables)]
  }

  /** The members of all entries that read a value, in table order. */
  function Pairs(entries: seq<StringOption>, vs: seq<Option<string>>): string
    requires |vs| == |entries|
  {
    if entries == [] then ""
    else
      var n := |entries| - 1;
      Pairs(entries[..n], vs[..n]) + Pair(entries[n].name, vs[n])
  }

  const JOB_ID_KEY: string := "{\"job_id\":"

  /** The job document: the job id, then one member for every option that reads a value. */
  function GenJson(jobid: nat, data: Option<map<string, Value>>, clientId: int, tables: ClientTables): string
    requires Readable(data, clientId, tables)
  {
    var opt := TableOf(tables, clientId);
    JOB_ID_KEY + FormatNat(jobid) + Pairs(opt, Readings(opt, data, clientId, tables)) + "}"
  }

  /** cli_gen_json */
  method CliGenJson(jobid: nat, data: OptionData?, clientId: int, tables: ClientTables) returns (json: string)
    requires jobid < 0x1_0000_0000
    requires Readable(Snapshot(data), clientId, tables)
    ensures json == GenJson(jobid, Snapshot(data), clientId, tables)
  {
    var opt := LookupClient(tables, clientId).value;
    ghost var vs := Readings(opt, Snapshot(data), clientId, tables);
    json := JOB_ID_KEY + FormatNat(jobid);
    ghost var head := json;
    ghost var members := "";
    var idx := 0;
    while idx < |opt|
      invariant 0 <= idx <= |opt|
      invariant members == Pairs(opt[..idx], vs[..idx])
      invariant json == head + members
    {
      var value := CliSiGet(Some(opt[idx].name), data, clientId, tables);
      assert value == vs[idx];
      if value.None? {
        PairsSnoc(opt, vs, idx, "");
        idx := idx + 1;
        continue;
      }
      var esc := JsonEscape(value.value);
      var member := Member(opt[idx].name, esc);
      PairsSnoc(opt, vs, idx, member);
      SeqAppendAssoc(head, members, member);
      json := json + member;
      members := members + member;
      idx := idx + 1;
    }
    assert opt[..idx] == opt && vs[..idx] == vs;
    json := json + "}";
  }

  lemma PairsSnoc(opt: seq<StringOption>, vs: seq<Option<string>>, idx: nat, member: string)
    requires |vs| == |opt| && idx < |opt|
    requires member == Pair(opt[idx].name, vs[idx])
    ensures Pairs(opt[..idx + 1], vs[..idx + 1]) == Pairs(opt[..idx], vs[..idx]) + member
  {
    assert opt[..idx + 1][..idx] == opt[..idx];
    assert vs[..idx + 1][..idx] == vs[..idx];
  }

  lemma {:induction false} PairsOfNothing(entries: seq<StringOption>, vs: seq<Option<string>>)
    requires |vs| == |entries| && forall i :: 0 <= i < |vs| ==> vs[i].None?
    ensures Pairs(entries, vs) == ""
  {
    if entries != [] {
      var n := |entries| - 1;
      PairsOfNothing(entries[..n], vs[..n]);
    }
  }

  /** Without data no option reads a value, and the document holds the job id alone. */
  lemma GenJsonWithoutData(jobid: nat, clientId: int, tables: ClientTables)
    requires Readable(None, clientId, tables)
    ensures GenJson(jobid, None, clientId, tables) == JOB_ID_KEY + FormatNat(jobid) + "}"
  {
    var opt := TableOf(tables, clientId);
    PairsOfNothing(opt, Readings(opt, None, clientId, tables));
  }

  /** Every member starts with the comma that separates it from what precedes it. */
  lemma {:induction false} PairsStart(entries: seq<StringOption>, vs: seq<Option<string>>)
    requires |vs| == |entries|
    ensures var p := Pairs(entries, vs); p == "" || p[0] == ','
  {
    if entries != [] {
      var n := |entries| - 1;
      PairsStart(entries[..n], vs[..n]);
    }
  }

  /** The number after the job_id key reads back as the job id. */
  lemma JobIdReadsBack(jobid: nat, data: Option<map<string, Value>>, clientId: int, tables: ClientTables)
    requires jobid <= 0xffff_ffff
    requires Readable(data, clientId, tables)
    ensures var j := GenJson(jobid, data, clientId, tables);
            |JOB_ID_KEY| <= |j| && j[..|JOB_ID_KEY|] == JOB_ID_KEY &&
            Strtol(j[|JOB_ID_KEY|..]) == Parsed(jobid, |FormatNat(jobid)|)
  {
    var ds := FormatNat(jobid);
    var opt := TableOf(tables, clientId);
    var rest := Pairs(opt, Readings(opt, data, clientId, tables)) + "}";
    assert |rest| > 0 && !IsDigit(rest[0]) by {
      PairsStart(opt, Readings(opt, data, clientId, tables));
    }
    var j := GenJson(jobid, data, clientId, tables);
    assert j == JOB_ID_KEY + (ds + rest);
    assert j[..|JOB_ID_KEY|] == JOB_ID_KEY && j[|JOB_ID_KEY|..] == ds + rest;
    NumberThenRest(jobid, rest);
  }

  /** The digits of n, followed by a non-digit, read back as n. */
  lemma NumberThenRest(n: nat, rest: string)
    requires n <= LONG_MAX
    requires |rest| > 0 && !IsDigit(rest[0])
    ensures Strtol(FormatNat(n) + rest) == Parsed(n, |FormatNat(n)|)
  {
    StrtolBeforeSeparator(FormatNat(n), rest);
    FormatNatValue(n);
  }

  /** Environment variables cli_gen_env_json leaves out of the list. */
  predicate Exported(e: string)
  {
    !NEq(e, "SLURM_", 6) && !NEq(e, "SPANK_", 6)
  }

  /** The exported variables, in order. */
  function Kept(environ: seq<string>): seq<string>
  {
    if environ == [] then []
    else
      var last := environ[|environ| - 1];
      Kept(environ[..|environ| - 1]) + (if Exported(last) then [last] else [])
  }

  /** A variable is listed exactly when it is set and is neither a SLURM_ nor a SPANK_ variable. */
  lemma {:induction false} KeptExactly(environ: seq<string>, e: string)
    ensures e in Kept(environ) <==>
              e in environ &&
              !(|e| >= 6 && e[..6] == "SLURM_") && !(|e| >= 6 && e[..6] == "SPANK_")
  {
    NEqIsPrefix(e, "SLURM_");
    NEqIsPrefix(e, "SPANK_");
    if environ != [] {
      KeptExactly(environ[..|environ| - 1], e);
      assert environ == environ[..|environ| - 1] + [environ[|environ| - 1]];
    }
  }

  /** cli_gen_env_json: the exported variables, each followed by '|', escaped. */
  method CliGenEnvJson(environ: seq<string>) returns (ret: string)
    ensures ret == EscapeCapped(BarJoin(Kept(environ)))
  {
    var tmp := "";
    var k := 0;
    while k < |environ|
      invariant 0 <= k <= |environ|
      invariant tmp == BarJoin(Kept(environ[..k]))
    {
      assert environ[..k + 1][..k] == environ[..k];
      if NEq(environ[k], "SLURM_", 6) {
        assert Kept(environ[..k + 1]) == Kept(environ[..k]);
        k := k + 1;
        continue;
      }
      if NEq(environ[k], "SPANK_", 6) {
        assert Kept(environ[..k + 1]) == Kept(environ[..k]);
        k := k + 1;
        continue;
      }
      assert Kept(environ[..k + 1]) == Kept(environ[..k]) + [environ[k]];
      BarJoinSnoc(Kept(environ[..k]), environ[k]);
      tmp := tmp + environ[k] + "|";
      k := k + 1;
    }
    assert environ[..k] == environ;
    ret := JsonEscape(tmp);
  }

  lemma BarJoinSnoc(xs: seq<string>, x: string)
    ensures BarJoin(xs + [x]) == BarJoin(xs) + x + "|"
  {
    assert (xs + [x])[..|xs|] == xs;
  }
}
