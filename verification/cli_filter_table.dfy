/**
 * The string interface of the cli_filter plugins: a table per client that
 * maps an option name to the field it designates and to the handlers that
 * read it as a string or write it from one. The raw offset of a field is
 * modelled by the field's name, the option structure by a map from field
 * names to values, and the generated tables by a parameter.
 */
module CliFilterTable {
  import opened CLib

  /** The read handlers a table entry can name (of the integer ones, only cli_si_get_int). */
  datatype Reader = GetString | GetStringArray | GetInt | GetBoolean

  /** The write handlers a table entry can name. */
  datatype Writer = SetString | SetInt | SetBoolean

  /** cli_string_option_t: name, the field at its offset, handlers, count field. */
  datatype StringOption = StringOption(
    name: string,
    field: string,
    read: Option<Reader>,
    write: Option<Writer>,
    countField: Option<string>)

  /** The value of one field of a client option structure. */
  datatype Value =
    | Str(s: Option<string>)
    | Int(i: int)
    | Bool(b: bool)
    | StrArray(arr: Option<seq<Option<string>>>)

  /** A client option structure, whose fields the setters overwrite in place. */
  class OptionData {
    var fields: map<string, Value>

    constructor (fields: map<string, Value>)
      ensures this.fields == fields
    {
      this.fields := fields;
    }
  }

  /** The data a getter sees: NULL or the current field values. */
  function Snapshot(data: OptionData?): Option<map<string, Value>>
    reads data
  {
    if data == null then None else Some(data.fields)
  }

  const CLI_SALLOC: int := 0
  const CLI_SBATCH: int := 1
  const CLI_SRUN: int := 2
  const CLI_SBCAST: int := 3

  /** The generated tables of the four clients. */
  datatype ClientTables = ClientTables(
    salloc: seq<StringOption>,
    sbatch: seq<StringOption>,
    srun: seq<StringOption>,
    bcast: seq<StringOption>)

  predicate KnownClient(clientId: int)
  {
    clientId == CLI_SALLOC || clientId == CLI_SBATCH || clientId == CLI_SRUN || clientId == CLI_SBCAST
  }

  /** _lookup_client: the table of one of the four clients, NULL for any other id. */
  function LookupClient(tables: ClientTables, clientId: int): (r: Option<seq<StringOption>>)
    ensures r.Some? <==> KnownClient(clientId)
    ensures clientId == CLI_SALLOC ==> r == Some(tables.salloc)
    ensures clientId == CLI_SBATCH ==> r == Some(tables.sbatch)
    ensures clientId == CLI_SRUN ==> r == Some(tables.srun)
    ensures clientId == CLI_SBCAST ==> r == Some(tables.bcast)
  {
    if clientId == CLI_SALLOC then Some(tables.salloc)
    else if clientId == CLI_SBATCH then Some(tables.sbatch)
    else if clientId == CLI_SRUN then Some(tables.srun)
    else if clientId == CLI_SBCAST then Some(tables.bcast)
    else None
  }

  function TableOf(tables: ClientTables, clientId: int): seq<StringOption>
    requires KnownClient(clientId)
  {
    LookupClient(tables, clientId).value
  }

  /** The index of the first entry named name, if any. */
  function FirstMatch(opt: seq<StringOption>, name: string): (r: Option<nat>)
    ensures r.Some? ==> r.value < |opt| && opt[r.value].name == name
    ensures r.Some? ==> forall k :: 0 <= k < r.value ==> opt[k].name != name
    ensures r.None? ==> forall k :: 0 <= k < |opt| ==> opt[k].name != name
  {
    FirstMatchFrom(opt, name, 0)
  }

  function FirstMatchFrom(opt: seq<StringOption>, name: string, i: nat): (r: Option<nat>)
    ensures r.Some? ==> i <= r.value < |opt| && opt[r.value].name == name
    ensures r.Some? ==> forall k :: i <= k < r.value ==> opt[k].name != name
    ensures r.None? ==> forall k :: i <= k < |opt| ==> opt[k].name != name
    decreases |opt| - i
  {
    if i >= |opt| then None
    else if opt[i].name == name then Some(i)
    else FirstMatchFrom(opt, name, i + 1)
  }

  /** cli_si_find: a linear search for the first entry with the given name. */
  method CliSiFind(name: string, opt: seq<StringOption>) returns (found: Option<nat>)
    ensures found == FirstMatch(opt, name)
  {
    var idx := 0;
    while idx < |opt|
      invariant 0 <= idx <= |opt|
      invariant forall k :: 0 <= k < idx ==> opt[k].name != name
    {
      if opt[idx].name == name {
        return Some(idx);
      }
      idx := idx + 1;
    }
    return None;
  }

  /** Whether the entry's handlers agree with the kind of value in its field. */
  predicate Fits(e: StringOption, v: Value)
  {
    && (e.read == Some(GetString) || e.write == Some(SetString) ==> v.Str?)
    && (e.read == Some(GetInt) || e.write == Some(SetInt) ==> v.Int?)
    && (e.read == Some(GetBoolean) || e.write == Some(SetBoolean) ==> v.Bool?)
    && (e.read == Some(GetStringArray) ==> v.StrArray?)
  }

  /** Every entry of the table designates a field of the structure of the right kind. */
  predicate Conforms(opt: seq<StringOption>, m: map<string, Value>)
  {
    forall k :: 0 <= k < |opt| ==> opt[k].field in m && Fits(opt[k], m[opt[k].field])
  }

  /** 1 when key names a string-array entry, whose reading consults its count field. */
  function Rank(opt: seq<StringOption>, key: string): nat
  {
    var f := FirstMatch(opt, key);
    if f.Some? && opt[f.value].read == Some(GetStringArray) then 1 else 0
  }

  /** A count field never names a string array itself. */
  predicate CountFieldOk(opt: seq<StringOption>, e: StringOption)
  {
    e.countField.Some? ==>
      forall j :: 0 <= j < |opt| && opt[j].name == e.countField.value ==> opt[j].read != Some(GetStringArray)
  }

  predicate WellFormed(opt: seq<StringOption>)
  {
    forall k :: 0 <= k < |opt| ==> CountFieldOk(opt, opt[k])
  }

  /** The preconditions every reading through cli_si_get needs. */
  predicate Readable(data: Option<map<string, Value>>, clientId: int, tables: ClientTables)
  {
    KnownClient(clientId) && WellFormed(TableOf(tables, clientId)) &&
    (data.Some? ==> Conforms(TableOf(tables, clientId), data.value))
  }

  /** cli_si_get_string: a copy of the string field, NULL when the field is NULL. */
  function CliSiGetString(data: Option<map<string, Value>>, stropt: Option<StringOption>): Option<string>
    requires data.Some? && stropt.Some? ==>
               stropt.value.field in data.value && data.value[stropt.value.field].Str?
  {
    if data.None? || stropt.None? then None else data.value[stropt.value.field].s
  }

  /** cli_si_get_int: the integer field printed in decimal. */
  function CliSiGetInt(data: Option<map<string, Value>>, stropt: Option<StringOption>): Option<string>
    requires data.Some? && stropt.Some? ==>
               stropt.value.field in data.value && data.value[stropt.value.field].Int?
  {
    if data.None? || stropt.None? then None else Some(FormatInt(data.value[stropt.value.field].i))
  }

  /** cli_si_get_boolean: "true" or "false". */
  function CliSiGetBoolean(data: Option<map<string, Value>>, stropt: Option<StringOption>): Option<string>
    requires data.Some? && stropt.Some? ==>
               stropt.value.field in data.value && data.value[stropt.value.field].Bool?
  {
    if data.None? || stropt.None? then None
    else Some(if data.value[stropt.value.field].b then "true" else "false")
  }

  /** The strings of a NULL-terminated array, up to its first NULL entry. */
  function Leading(a: seq<Option<string>>): (l: seq<string>)
    ensures |l| <= |a|
    ensures forall j :: 0 <= j < |l| ==> a[j] == Some(l[j])
    ensures |l| < |a| ==> a[|l|].None?
  {
    if a == [] || a[0].None? then [] else [a[0].value] + Leading(a[1..])
  }

  /** Each string followed by '|'. */
  function BarJoin(xs: seq<string>): string
  {
    if xs == [] then "" else BarJoin(xs[..|xs| - 1]) + xs[|xs| - 1] + "|"
  }

  /** The size_t the count becomes after strtol and the casts. */
  function Limit(n: int): nat
  {
    n % 0x1_0000_0000_0000_0000
  }

  function Min(a: nat, b: nat): nat
  {
    if a < b then a else b
  }

  /** What cli_si_get returns for key, on a snapshot of the data. */
  function Get(key: Option<string>, data: Option<map<string, Value>>, clientId: int, tables: ClientTables): Option<string>
    requires Readable(data, clientId, tables)
    decreases if key.Some? then Rank(TableOf(tables, clientId), key.value) else 0, 1
  {
    if key.None? || data.None? then None
    else
      var opt := TableOf(tables, clientId);
      var f := FirstMatch(opt, key.value);
      if f.None? || opt[f.value].read.None? then None
      else
        var e := opt[f.value];
        assert e.field in data.value && Fits(e, data.value[e.field]) && CountFieldOk(opt, e);
        match e.read.value
        case GetString => CliSiGetString(data, Some(e))
        case GetInt => CliSiGetInt(data, Some(e))
        case GetBoolean => CliSiGetBoolean(data, Some(e))
        case GetStringArray => GetStringArraySpec(data, Some(e), clientId, tables)
  }

  /** What cli_si_get_stringarray returns. */
  function GetStringArraySpec(data: Option<map<string, Value>>, stropt: Option<StringOption>,
                              clientId: int, tables: ClientTables): Option<string>
    requires Readable(data, clientId, tables)
    requires data.Some? && stropt.Some? ==>
               stropt.value.field in data.value && data.value[stropt.value.field].StrArray?
    requires stropt.Some? ==> CountFieldOk(TableOf(tables, clientId), stropt.value)
    decreases 1, 0
  {
    if data.None? || stropt.None? || stropt.value.countField.None? then None
    else
      var limitStr := Get(stropt.value.countField, data, clientId, tables);
      if limitStr.None? then None
      else
        var arr := data.value[stropt.value.field].arr;
        var limit := Limit(Strtol(limitStr.value).value);
        Some(if arr.None? then "" else
               var l := Leading(arr.value); BarJoin(l[..Min(limit, |l|)]))
  }

  /** cli_si_get: NULL for a NULL key or data, an unknown key, or an entry without a reader. */
  method CliSiGet(key: Option<string>, data: OptionData?, clientId: int, tables: ClientTables)
    returns (r: Option<string>)
    requires Readable(Snapshot(data), clientId, tables)
    ensures r == Get(key, Snapshot(data), clientId, tables)
    ensures key.None? || data == null ==> r == None
    ensures var opt := TableOf(tables, clientId);
      key.Some? && (FirstMatch(opt, key.value).None? || opt[FirstMatch(opt, key.value).value].read.None?) ==> r == None
    decreases if key.Some? then Rank(TableOf(tables, clientId), key.value) else 0, 1
  {
    if key.None? || data == null {
      return None;
    }
    var opt := LookupClient(tables, clientId).value;
    var found := CliSiFind(key.value, opt);
    if found.None? || opt[found.value].read.None? {
      return None;
    }
    var e := opt[found.value];
    assert e.field in data.fields && Fits(e, data.fields[e.field]) && CountFieldOk(opt, e);
    match e.read.value {
      case GetString => r := CliSiGetString(Snapshot(data), Some(e));
      case GetInt => r := CliSiGetInt(Snapshot(data), Some(e));
      case GetBoolean => r := CliSiGetBoolean(Snapshot(data), Some(e));
      case GetStringArray => r := CliSiGetStringArray(data, Some(e), clientId, tables);
    }
  }

  /**
   * cli_si_get_stringarray: NULL without a count field or when the count
   * cannot be read; otherwise at most count leading non-NULL entries of the
   * array, each followed by '|'.
   */
  method CliSiGetStringArray(data: OptionData?, stropt: Option<StringOption>, clientId: int, tables: ClientTables)
    returns (r: Option<string>)
    requires Readable(Snapshot(data), clientId, tables)
    requires data != null && stropt.Some? ==>
               stropt.value.field in data.fields && data.fields[stropt.value.field].StrArray?
    requires stropt.Some? ==> CountFieldOk(TableOf(tables, clientId), stropt.value)
    ensures r == GetStringArraySpec(Snapshot(data), stropt, clientId, tables)
    ensures data == null || stropt.None? || stropt.value.countField.None? ==> r == None
    ensures stropt.Some? && Get(stropt.value.countField, Snapshot(data), clientId, tables).None? ==> r == None
    decreases 1, 0
  {
    if data == null || stropt.None? || stropt.value.countField.None? {
      return None;
    }
    var limitStr := CliSiGet(stropt.value.countField, data, clientId, tables);
    if limitStr.None? {
      return None;
    }
    var limit := Limit(Strtol(limitStr.value).value);
    var arr := data.fields[stropt.value.field].arr;
    var ret := "";
    if arr.Some? {
      var a := arr.value;
      ghost var l := Leading(a);
      var k := 0;
      while k < |a| && a[k].Some? && k < limit
        invariant 0 <= k <= |l| && k <= limit
        invariant ret == BarJoin(l[..k])
      {
        assert l[..k + 1][..k] == l[..k];
        ret := ret + a[k].value + "|";
        k := k + 1;
      }
      assert k == Min(limit, |l|);
    }
    r := Some(ret);
  }

  /** The value cli_si_set_string stores: a copy of the string. */
  function StoredString(value: string): Value
  {
    Str(Some(value))
  }

  /** The value cli_si_set_int stores: atoi of the string, an int. */
  function StoredInt(value: string): (v: Value)
    ensures v.Int? && -INT_MAX - 1 <= v.i <= INT_MAX
  {
    Int(Atoi(value))
  }

  /** The value cli_si_set_boolean stores: "true" in any case, or a nonzero number. */
  function StoredBoolean(value: string): (v: Value)
    ensures v.Bool? && (v.b <==> CaseEq(value, "true") || Atoi(value) != 0)
  {
    Bool(CaseEq(value, "true") || Atoi(value) != 0)
  }

  /** cli_si_set_string */
  method CliSiSetString(value: Option<string>, data: OptionData?, stropt: Option<StringOption>) returns (ok: bool)
    modifies data
    ensures ok <==> data != null && stropt.Some? && value.Some?
    ensures ok ==> data.fields == old(data.fields)[stropt.value.field := StoredString(value.value)]
    ensures !ok && data != null ==> data.fields == old(data.fields)
  {
    if data == null || stropt.None? || value.None? {
      return false;
    }
    data.fields := data.fields[stropt.value.field := StoredString(value.value)];
    return true;
  }

  /** cli_si_set_int */
  method CliSiSetInt(value: Option<string>, data: OptionData?, stropt: Option<StringOption>) returns (ok: bool)
    modifies data
    ensures ok <==> data != null && stropt.Some? && value.Some?
    ensures ok ==> data.fields == old(data.fields)[stropt.value.field := StoredInt(value.value)]
    ensures !ok && data != null ==> data.fields == old(data.fields)
  {
    if data == null || value.None? || stropt.None? {
      return false;
    }
    data.fields := data.fields[stropt.value.field := StoredInt(value.value)];
    return true;
  }

  /** cli_si_set_boolean */
  method CliSiSetBoolean(value: Option<string>, data: OptionData?, stropt: Option<StringOption>) returns (ok: bool)
    modifies data
    ensures ok <==> data != null && stropt.Some? && value.Some?
    ensures ok ==> data.fields == old(data.fields)[stropt.value.field := StoredBoolean(value.value)]
    ensures !ok && data != null ==> data.fields == old(data.fields)
  {
    if data == null || value.None? || stropt.None? {
      return false;
    }
    var towrite := false;
    if CaseEq(value.value, "true") || Atoi(value.value) != 0 {
      towrite := true;
    }
    data.fields := data.fields[stropt.value.field := Bool(towrite)];
    return true;
  }

  /** The value a writer stores. */
  function Stored(w: Writer, value: string): Value
  {
    match w
    case SetString => StoredString(value)
    case SetInt => StoredInt(value)
    case SetBoolean => StoredBoolean(value)
  }

  /** The entry cli_si_set writes through, if any. */
  function SetTarget(key: string, clientId: int, tables: ClientTables): Option<StringOption>
    requires KnownClient(clientId)
  {
    var opt := TableOf(tables, clientId);
    var f := FirstMatch(opt, key);
    if f.None? || opt[f.value].write.None? then None else Some(opt[f.value])
  }

  /**
   * cli_si_set: false for a NULL value, key or data, an unknown key or an
   * entry without a writer; otherwise the entry's writer stores the value.
   */
  method CliSiSet(value: Option<string>, key: Option<string>, data: OptionData?, clientId: int, tables: ClientTables)
    returns (ok: bool)
    requires KnownClient(clientId)
    modifies data
    ensures ok <==> value.Some? && key.Some? && data != null && SetTarget(key.value, clientId, tables).Some?
    ensures ok ==>
              var e := SetTarget(key.value, clientId, tables).value;
              data.fields == old(data.fields)[e.field := Stored(e.write.value, value.value)]
    ensures !ok && data != null ==> data.fields == old(data.fields)
  {
    if value.None? || key.None? || data == null {
      return false;
    }
    var opt := LookupClient(tables, clientId).value;
    var found := CliSiFind(key.value, opt);
    if found.None? || opt[found.value].write.None? {
      return false;
    }
    var e := opt[found.value];
    match e.write.value {
      case SetString => ok := CliSiSetString(value, data, Some(e));
      case SetInt => ok := CliSiSetInt(value, data, Some(e));
      case SetBoolean => ok := CliSiSetBoolean(value, data, Some(e));
    }
  }

  /** Overwriting a field with a value of the same kind keeps the table conforming. */
  lemma ConformsAfterWrite(opt: seq<StringOption>, m: map<string, Value>, f: string, v: Value)
    requires Conforms(opt, m) && f in m
    requires v.Str? == m[f].Str? && v.Int? == m[f].Int? && v.Bool? == m[f].Bool? && v.StrArray? == m[f].StrArray?
    ensures Conforms(opt, m[f := v])
  {
  }

  /** cli_si_set on a string option, then cli_si_get, returns the value stored. */
  lemma {:induction false} SetStringThenGet(key: string, m: map<string, Value>, value: string,
                                            clientId: int, tables: ClientTables)
    requires Readable(Some(m), clientId, tables)
    requires SetTarget(key, clientId, tables).Some?
    requires SetTarget(key, clientId, tables).value.write == Some(SetString)
    requires SetTarget(key, clientId, tables).value.read == Some(GetString)
    ensures var e := SetTarget(key, clientId, tables).value;
            var m' := m[e.field := Stored(SetString, value)];
            Readable(Some(m'), clientId, tables) && Get(Some(key), Some(m'), clientId, tables) == Some(value)
  {
    var opt := TableOf(tables, clientId);
    var e := SetTarget(key, clientId, tables).value;
    var i := FirstMatch(opt, key).value;
    assert opt[i] == e;
    ConformsAfterWrite(opt, m, e.field, Stored(SetString, value));
  }

  /**
   * An integer printed as cli_si_get_int prints it and stored back by
   * cli_si_set_int is unchanged exactly when it fits an int.
   */
  lemma IntRoundTrip(n: int)
    ensures StoredInt(FormatInt(n)) == Int(n) <==> -INT_MAX - 1 <= n <= INT_MAX
  {
    StrtolFormatInt(n);
  }

  /**
   * Any other number is saturated to a long and then wraps to its low 32
   * bits: 2147483648 is stored as INT_MIN, a number beyond LONG_MAX as -1.
   */
  lemma IntWraps(n: int)
    ensures StoredInt(FormatInt(n)) == Int(ToInt32(Saturate(n)))
    ensures StoredInt(FormatInt(INT_MAX + 1)) == Int(-INT_MAX - 1)
    ensures n > LONG_MAX ==> StoredInt(FormatInt(n)) == Int(-1)
  {
    StrtolFormatInt(n);
    StrtolFormatInt(INT_MAX + 1);
  }

  /**
   * A number stored by cli_si_set_boolean is true iff its int conversion
   * is non-zero: 4294967296 is stored as false.
   */
  lemma NumericBoolean(n: int)
    ensures StoredBoolean(FormatInt(n)) == Bool(ToInt32(Saturate(n)) != 0)
    ensures StoredBoolean(FormatInt(0x1_0000_0000)) == Bool(false)
  {
    StrtolFormatInt(n);
    StrtolFormatInt(0x1_0000_0000);
    FormatIntNotTrue(n);
    FormatIntNotTrue(0x1_0000_0000);
  }

  /** A printed number is never "true" in any case. */
  lemma FormatIntNotTrue(n: int)
    ensures !CaseEq(FormatInt(n), "true")
  {
    var s := FormatInt(n);
    if n < 0 {
      assert s[0] == '-';
    } else {
      assert s[0] == FormatNat(n)[0] && IsDigit(s[0]);
    }
  }

  lemma {:induction false} StrtolNoDigits(s: string)
    requires |s| > 0 && !IsSpace(s[0]) && !IsDigit(s[0]) && s[0] != '+' && s[0] != '-'
    ensures Strtol(s) == Parsed(0, 0)
  {
    assert SkipSpace(s, 0) == 0;
    assert DigitsEnd(s, 0) == 0;
  }

  /** A boolean printed by cli_si_get_boolean and stored back by cli_si_set_boolean is unchanged. */
  lemma BooleanRoundTrip(b: bool)
    ensures StoredBoolean(if b then "true" else "false") == Bool(b)
  {
    StrtolNoDigits("true");
    StrtolNoDigits("false");
    assert !CaseEq("false", "true");
  }

  lemma {:induction false} BarJoinBars(xs: seq<string>)
    requires forall k :: 0 <= k < |xs| ==> '|' !in xs[k]
    ensures multiset(BarJoin(xs))['|'] == |xs|
  {
    if xs != [] {
      BarJoinBars(xs[..|xs| - 1]);
      assert BarJoin(xs) == BarJoin(xs[..|xs| - 1]) + xs[|xs| - 1] + "|";
      assert multiset(xs[|xs| - 1])['|'] == 0;
    }
  }

  /** Reading an integer option yields its decimal form. */
  lemma {:induction false} GetIntOption(key: string, m: map<string, Value>, clientId: int,
                                        tables: ClientTables, i: nat, n: int)
    requires Readable(Some(m), clientId, tables)
    requires FirstMatch(TableOf(tables, clientId), key) == Some(i)
    requires TableOf(tables, clientId)[i].read == Some(GetInt)
    requires TableOf(tables, clientId)[i].field in m && m[TableOf(tables, clientId)[i].field] == Int(n)
    ensures Get(Some(key), Some(m), clientId, tables) == Some(FormatInt(n))
  {
  }

  /** A count printed as a non-negative long reads back as the same size_t. */
  lemma CountReadsBack(n: nat)
    requires n <= LONG_MAX
    ensures Limit(Strtol(FormatInt(n)).value) == n
  {
    StrtolFormatInt(n);
  }

  /**
   * Reading a string array whose count field is a non-negative integer n
   * yields one '|'-terminated entry for each of the first n leading strings
   * (all of them when there are fewer).
   */
  lemma {:induction false} StringArrayHonoursCount(key: string, m: map<string, Value>, clientId: int,
                                                   tables: ClientTables, i: nat, c: nat, n: nat)
    requires Readable(Some(m), clientId, tables)
    requires FirstMatch(TableOf(tables, clientId), key) == Some(i)
    requires TableOf(tables, clientId)[i].read == Some(GetStringArray)
    requires TableOf(tables, clientId)[i].countField.Some?
    requires FirstMatch(TableOf(tables, clientId), TableOf(tables, clientId)[i].countField.value) == Some(c)
    requires TableOf(tables, clientId)[c].read == Some(GetInt)
    requires TableOf(tables, clientId)[c].field in m && m[TableOf(tables, clientId)[c].field] == Int(n)
    requires n <= LONG_MAX
    requires TableOf(tables, clientId)[i].field in m && m[TableOf(tables, clientId)[i].field].StrArray?
    requires m[TableOf(tables, clientId)[i].field].arr.Some?
    ensures var l := Leading(m[TableOf(tables, clientId)[i].field].arr.value);
            Get(Some(key), Some(m), clientId, tables) == Some(BarJoin(l[..Min(n, |l|)]))
  {
    var opt := TableOf(tables, clientId);
    var e := opt[i];
    assert CountFieldOk(opt, e);
    assert Get(e.countField, Some(m), clientId, tables) == Some(FormatInt(n)) by {
      GetIntOption(e.countField.value, m, clientId, tables, c, n);
    }
    CountReadsBack(n);
    assert Get(Some(key), Some(m), clientId, tables) == GetStringArraySpec(Some(m), Some(e), clientId, tables);
  }
}
