# Slurm option handling and partition-priority preemption, modelled in Dafny

This project models four pieces of an early Slurm tree and proves properties about them:

- **The partition-priority preemption plugin.** `find_preemptable_jobs` picks the running or suspended
  jobs that a pending job may preempt and sorts them by a packed priority key. The companion rules say
  which preemption mode applies to a job, whether preemption is on, and whether one job may preempt
  another (module `PartitionPrio`).
- **The string interface of the cli_filter plugins.** It is a name-to-accessor table for each client
  command. It provides null-guarded get and set through that table, reads string arrays bounded by a
  count field, and parses booleans (module `CliFilterTable`). Over the table sit the JSON string escaper
  with its length cap and the JSON builders for an option record and for the environment (module
  `CliFilterJson`).
- **sbatch's option helpers.** These cover:
  - splitting a batch script into lines and collecting the arguments of its `#SBATCH` directives
    (module `SbatchScript`);
  - the parsers for distribution, connection and mail types, sizes, integers, node geometries, base
    names and PATH lists (module `SbatchArgs`);
  - the `--cpu_bind`/`--mem_bind` parsers (module `SbatchBind`);
  - the final check and normalisation of the option record (module `SbatchVerify`).
- **The Python generator of the cli_filter option tables.** It parses member declarations into name,
  type and pointer degree, matches members to interface entries, and prints table rows in sorted
  member order (module `GenCliFilter`, on the Python string helpers of module `PyText`).

Module `CLib` holds the C library behaviour the code relies on: NUL-terminated strings, `isspace`,
case folding, `strncmp`/`strncasecmp`/`strcasecmp`, `strtol` with its end pointer, `strchr`, `strstr`,
and a decimal formatter.

Some parts of the source are imperative, and the model keeps that form:

- The pointer-advancing loops (`_next_line`, `_get_argument`, the directive loop, `_json_escape`, the
  JSON builders, `cli_si_find`, the bind parsers' prefix and suffix scans, the generator's loops) are
  methods with loops. Each is proved equal to a specification function, and the properties are proved
  about that function.
- `_verify_geometry` writes into a caller's array, so its model does too.
- `_opt_verify` updates a record field by field. It is the class `SbatchVerify.Opt`.
- The struct written by the `cli_si_set_*` functions is the class `CliFilterTable.OptionData`, which
  holds a field map.

Where a C integer width matters, it is written out:

- the 32-bit packed preemption key;
- `(uint16_t)` truncation of geometry dimensions;
- `strtol`'s saturation at LONG_MIN/LONG_MAX for a 64-bit `long`;
- `(int)` conversion in `_get_int` and in glibc's `atoi`, so `cli_si_set_int`, `cli_si_set_boolean` and
  geometry dimensions see a 32-bit `int`;
- the `bv16` mail and preemption bits;
- the `bv32` bind types.

## Model

| member | source | states |
|---|---|---|
| PartitionPrio.Candidates | src/plugins/preempt/partition_prio/preempt_partition_prio.c:105-128 | the scan keeps at most as many jobs as the list holds |
| PartitionPrio.CandidatesExact | src/plugins/preempt/partition_prio/preempt_partition_prio.c:105-128 | a job is kept iff it is in the list and passes all four checks, and it is kept exactly as often as it occurs |
| PartitionPrio.GenJobPrio | src/plugins/preempt/partition_prio/preempt_partition_prio.c:136-151 | the upper 16 bits of the key are the partition priority (0 without a partition), the lower 16 the node count clamped to 0xffff |
| PartitionPrio.SortByPrio | src/plugins/preempt/partition_prio/preempt_partition_prio.c:153-169 | the comparator is -1, 0 or 1 exactly as the first key is below, equal to or above the second |
| PartitionPrio.SortByPrioAntisymmetric | src/plugins/preempt/partition_prio/preempt_partition_prio.c:153-169 | swapping the arguments negates the comparison |
| PartitionPrio.PartitionPriorityDominates | src/plugins/preempt/partition_prio/preempt_partition_prio.c:136-169 | a lower partition priority sorts first whatever the node counts |
| PartitionPrio.NodeCountBreaksTies | src/plugins/preempt/partition_prio/preempt_partition_prio.c:136-169 | with equal priorities, the smaller node count below 0xffff sorts first |
| PartitionPrio.Insert | src/plugins/preempt/partition_prio/preempt_partition_prio.c:131-132 | inserting into a sorted list keeps it sorted and adds exactly the one job |
| PartitionPrio.ListSort | src/plugins/preempt/partition_prio/preempt_partition_prio.c:131-132 | list_sort with _sort_by_prio yields a list sorted by the key that is a permutation of its input |
| PartitionPrio.FindPreemptableJobs | src/plugins/preempt/partition_prio/preempt_partition_prio.c:78-134 | NULL for an invalid preemptor (none, not pending, no partition, no partition bitmap) and when nothing qualifies; otherwise a non-empty, sorted permutation of the qualifying jobs |
| PartitionPrio.ReturnedJobsAreSafe | src/plugins/preempt/partition_prio/preempt_partition_prio.c:108-119 | every returned job is running or suspended, has a lower partition priority, has nodes that overlap the preemptor's partition, and is not the job being expanded |
| PartitionPrio.QualifyingJobsAreReturned | src/plugins/preempt/partition_prio/preempt_partition_prio.c:105-132 | every job that passes the checks is returned, as often as it is listed |
| PartitionPrio.SortedResultHasAscendingPriorities | src/plugins/preempt/partition_prio/preempt_partition_prio.c:131-169 | in the sorted result, partition priorities never decrease |
| PartitionPrio.JobPreemptMode | src/plugins/preempt/partition_prio/preempt_partition_prio.c:174-181 | a set partition mode is returned verbatim; otherwise the result is the cluster mode with the GANG bit cleared |
| PartitionPrio.PreemptionEnabled | src/plugins/preempt/partition_prio/preempt_partition_prio.c:186-189 | enabled iff the cluster mode is not OFF |
| PartitionPrio.FallbackModeOff | src/plugins/preempt/partition_prio/preempt_partition_prio.c:174-189 | without a partition mode, a cluster mode of OFF or of GANG alone gives OFF |
| PartitionPrio.JobPreemptCheck | src/plugins/preempt/partition_prio/preempt_partition_prio.c:194-204 | true iff both partitions exist and the preemptor's priority is strictly greater |
| PartitionPrio.JobPreemptCheckStrictOrder | src/plugins/preempt/partition_prio/preempt_partition_prio.c:194-204 | the check is irreflexive, asymmetric and transitive |
| PartitionPrio.CandidatePassesPairwiseCheck | src/plugins/preempt/partition_prio/preempt_partition_prio.c:105-119 | every job the scan keeps also passes job_preempt_check against the preemptor |
| CliFilterTable.LookupClient | src/plugins/cli_filter/common/cli_filter_common.c:65-75 | a table exactly for the four client ids, each its own client's table, NULL otherwise |
| CliFilterTable.FirstMatch | src/plugins/cli_filter/common/cli_filter_common.c:54-63 | the first entry with the name, with no earlier entry of that name, or none when no entry has it |
| CliFilterTable.CliSiFind | src/plugins/cli_filter/common/cli_filter_common.c:54-63 | the search loop returns the first matching entry |
| CliFilterTable.CliSiGet | src/plugins/cli_filter/common/cli_filter_common.c:77-88 | NULL for a null key or record; otherwise the value the matching entry's reader yields, NULL for an unknown key or a missing reader |
| CliFilterTable.CliSiGetStringArray | src/plugins/cli_filter/common/cli_filter_common.c:227-248 | NULL without an entry, record or count field, or when the count cannot be read; otherwise the first count leading non-NULL strings, each followed by a bar |
| CliFilterTable.Leading | src/plugins/cli_filter/common/cli_filter_common.c:243 | the strings before the first NULL of the array |
| CliFilterTable.StoredBoolean | src/plugins/cli_filter/common/cli_filter_common.c:508-520 | true iff the value is "true" up to case or atoi, an int, reads it as non-zero |
| CliFilterTable.StoredInt | src/plugins/cli_filter/common/cli_filter_common.c:266-268 | the stored value is atoi of the text and lies in int range |
| CliFilterTable.CliSiSetString | src/plugins/cli_filter/common/cli_filter_common.c:215-225 | succeeds iff record, entry and value are present; then only the entry's field changes, to the string |
| CliFilterTable.CliSiSetInt | src/plugins/cli_filter/common/cli_filter_common.c:259-269 | succeeds iff record, entry and value are present; then only the entry's field changes, to atoi of the value as an int (strtol saturated to a long, then its low 32 bits) |
| CliFilterTable.CliSiSetBoolean | src/plugins/cli_filter/common/cli_filter_common.c:508-520 | succeeds iff record, entry and value are present; then only the entry's field changes, to the parsed boolean, whose numeric test is on atoi's int |
| CliFilterTable.CliSiSet | src/plugins/cli_filter/common/cli_filter_common.c:90-102 | false for a null value, key or record, an unknown key or a missing writer; otherwise the entry's writer stores the value and nothing else changes |
| CliFilterTable.ConformsAfterWrite | src/plugins/cli_filter/common/cli_filter_common.c:215-225 | a write that keeps a field's kind keeps the record well-typed for the table |
| CliFilterTable.SetStringThenGet | src/plugins/cli_filter/common/cli_filter_common.c:205-225 | setting a string option and then reading it returns the stored value |
| CliFilterTable.IntRoundTrip | src/plugins/cli_filter/common/cli_filter_common.c:250-269 | writing the decimal text of an integer stores that integer exactly when it lies in INT_MIN..INT_MAX |
| CliFilterTable.IntWraps | src/plugins/cli_filter/common/cli_filter_common.c:259-269 | any other number is saturated to a long and wraps to its low 32 bits: 2147483648 is stored as INT_MIN, a number beyond LONG_MAX as -1 |
| CliFilterTable.NumericBoolean | src/plugins/cli_filter/common/cli_filter_common.c:508-520 | a number is stored as true iff its int conversion is non-zero, so 4294967296 is stored as false |
| CliFilterTable.BooleanRoundTrip | src/plugins/cli_filter/common/cli_filter_common.c:499-520 | the text a boolean is read as is parsed back to the same boolean |
| CliFilterTable.StrtolNoDigits | src/plugins/cli_filter/common/cli_filter_common.c:516 | a value not starting with a sign, blank or digit reads as 0 and consumes nothing |
| CliFilterTable.GetIntOption | src/plugins/cli_filter/common/cli_filter_common.c:77-88 | an integer option is read as its decimal text |
| CliFilterTable.BarJoinBars | src/plugins/cli_filter/common/cli_filter_common.c:243-245 | joining bar-free strings puts exactly one bar per string |
| CliFilterTable.StringArrayHonoursCount | src/plugins/cli_filter/common/cli_filter_common.c:227-248 | a string array is read as its first min(count, leading) strings, each followed by a bar |
| CliFilterJson.EscapeChar | src/plugins/cli_filter/common/cli_filter_common.c:119-162 | each character becomes one to six characters |
| CliFilterJson.EscapeAppend | src/plugins/cli_filter/common/cli_filter_common.c:112-163 | escaping works character by character: the escape of a concatenation is the concatenation of the escapes |
| CliFilterJson.EscapeLength | src/plugins/cli_filter/common/cli_filter_common.c:119-162 | the escape is between one and six times as long as the input |
| CliFilterJson.JsonEscape | src/plugins/cli_filter/common/cli_filter_common.c:105-165 | the output loop yields the escape of the longest prefix at which the output had not yet reached MAX_STR_LEN |
| CliFilterJson.StopFromIsFirst | src/plugins/cli_filter/common/cli_filter_common.c:112-114 | the loop stops at the first prefix whose escape reaches MAX_STR_LEN, or at the end |
| CliFilterJson.CappedLength | src/plugins/cli_filter/common/cli_filter_common.c:112-114 | capped output is shorter than MAX_STR_LEN plus six |
| CliFilterJson.CappedIsWholeWhenShort | src/plugins/cli_filter/common/cli_filter_common.c:112-114 | when the full escape fits within MAX_STR_LEN, nothing is cut |
| CliFilterJson.EscapeIsJsonString | src/plugins/cli_filter/common/cli_filter_common.c:104-162 | the escape is a valid JSON string body iff the input has no character below 0x20 other than the five it escapes (backspace, form feed, newline, CR, tab); any other one is copied raw |
| CliFilterJson.UnescapeEscape | src/plugins/cli_filter/common/cli_filter_common.c:119-162 | decoding the escape as a JSON string gives the input back |
| CliFilterJson.UnescapeChar | src/plugins/cli_filter/common/cli_filter_common.c:119-162 | each escaped character is decoded to itself |
| CliFilterJson.Readings | src/plugins/cli_filter/common/cli_filter_common.c:172-176 | one cli_si_get reading per table entry, in table order |
| CliFilterJson.CliGenJson | src/plugins/cli_filter/common/cli_filter_common.c:167-184 | the builder loop yields the job id prefix, one escaped pair per entry that reads non-NULL in table order, and the closing brace |
| CliFilterJson.PairsSnoc | src/plugins/cli_filter/common/cli_filter_common.c:172-181 | each loop step appends exactly that entry's pair |
| CliFilterJson.PairsOfNothing | src/plugins/cli_filter/common/cli_filter_common.c:175-176 | entries that read NULL add nothing |
| CliFilterJson.GenJsonWithoutData | src/plugins/cli_filter/common/cli_filter_common.c:167-184 | with no record the object holds only the job id |
| CliFilterJson.PairsStart | src/plugins/cli_filter/common/cli_filter_common.c:178 | the pairs are empty or start with a comma |
| CliFilterJson.JobIdReadsBack | src/plugins/cli_filter/common/cli_filter_common.c:167-171 | for a uint32_t job id, the output starts with the job_id key, and the number after it reads back as the job id |
| CliFilterJson.KeptExactly | src/plugins/cli_filter/common/cli_filter_common.c:192-196 | an environment entry is kept iff it starts with neither SLURM_ nor SPANK_ |
| CliFilterJson.CliGenEnvJson | src/plugins/cli_filter/common/cli_filter_common.c:186-202 | the output is the capped escape of the kept entries, each followed by a bar |
| CliFilterJson.BarJoinSnoc | src/plugins/cli_filter/common/cli_filter_common.c:197 | each kept entry appends itself and one bar |
| SbatchScript.LineBreak | src/sbatch/opt.c:1105-1107 | the first newline at or after the cursor, or the end of the buffer |
| SbatchScript.Truncate | src/sbatch/opt.c:1110-1113 | the copied line is a NUL-free prefix of the slice |
| SbatchScript.NextLine | src/sbatch/opt.c:1095-1116 | NULL once the cursor reaches the size; otherwise the slice up to and including the next newline, with the cursor moved past it |
| SbatchScript.SegmentsCover | src/sbatch/opt.c:1095-1116 | the slices that repeated calls return, concatenated, are the whole buffer |
| SbatchScript.SegmentsAreLines | src/sbatch/opt.c:1095-1116 | every slice is non-empty and holds a newline at most as its last character |
| SbatchScript.ArgScan | src/sbatch/opt.c:1151-1175 | the copy loop never copies more than it consumes |
| SbatchScript.GetArgumentSpec | src/sbatch/opt.c:1130-1183 | the consumed count stays within the line, and a returned argument is non-empty with something consumed |
| SbatchScript.GetArgument | src/sbatch/opt.c:1130-1183 | the pointer loops yield the argument and skipped count of the specification |
| SbatchScript.QuotedArgument | src/sbatch/opt.c:1141-1182 | a blank then a quoted, backslash-escaped word is read as that word, consuming exactly its text |
| SbatchScript.ScanBackslashed | src/sbatch/opt.c:1155-1160 | backslash-escaped characters are copied literally |
| SbatchScript.NoMoreArgsEnds | src/sbatch/opt.c:1141-1150 | a rest of blanks, or a comment, yields no argument |
| SbatchScript.ArgsOfQuoteAll | src/sbatch/opt.c:1215-1222 | a line of quoted words is collected as exactly those words, in order |
| SbatchScript.ArgsOfFirst | src/sbatch/opt.c:1215-1222 | the collection loop resumes right after the consumed text |
| SbatchScript.LineArguments | src/sbatch/opt.c:1214-1222 | the inner loop collects the directive line's arguments in order |
| SbatchScript.OptBatchScript | src/sbatch/opt.c:1191-1232 | argv is a blank argv[0] followed by the arguments of every directive line, in script order, for a given prefix compare length |
| SbatchScript.DirectivesStep | src/sbatch/opt.c:1208-1224 | each line contributes its own arguments before those of later lines |
| SbatchScript.ComparesPointerSize | src/sbatch/opt.c:1209 | with a compare length of 8, a line matches iff it is exactly "#SBATCH" |
| SbatchScript.PointerSizeDirectivesFrom | src/sbatch/opt.c:1208-1224 | with a compare length of 8, no line yields an argument |
| SbatchScript.AsWrittenCollectsNothing | src/sbatch/opt.c:1209 | as written, every script yields only the blank argv[0] |
| SbatchScript.DirectiveLineRoundTrip | src/sbatch/opt.c:1191-1232 | comparing strlen("#SBATCH") characters, a directive line of quoted words yields those words |
| SbatchArgs.DistTypeIsFirstPrefix | src/sbatch/opt.c:231-244 | cyclic, block or arbitrary iff the argument case-insensitively abbreviates it and no earlier keyword; -1 iff it abbreviates none |
| SbatchArgs.ConnTypeIsFirstPrefix | src/sbatch/opt.c:250-263 | MESH, TORUS or NAV by the same first-abbreviation rule; -1 otherwise |
| SbatchArgs.PrintMailType | src/sbatch/opt.c:1664-1678 | "UNKNOWN" exactly for values other than 0, BEGIN, END, FAIL and ALL |
| SbatchArgs.MailTypeRoundTrip | src/sbatch/opt.c:1647-1678 | parsing the printed name of a named value gives the value back |
| SbatchArgs.ParsedMailTypeIsNamed | src/sbatch/opt.c:1647-1678 | a parsed value is named and prints as the keyword, up to case; 0 iff no keyword matched |
| SbatchArgs.ToBytesOfNumber | src/sbatch/opt.c:565-608 | a number reads as itself, with G as 1024 times it and with M as itself, either case |
| SbatchArgs.ToBytesUnknownUnit | src/sbatch/opt.c:585-604 | any other unit letter negates the number |
| SbatchArgs.ToBytesInteriorJunk | src/sbatch/opt.c:577-582 | a digit-terminated string with junk after the leading digits is the negated leading value |
| CLib.Saturate | src/sbatch/opt.c:1832 | strtol's result lies in the range of a 64-bit long, equals the number when it fits and the nearer bound otherwise |
| CLib.Strtol | src/sbatch/opt.c:1832 | the end index stays within the text and the value within the range of a long |
| CLib.ToInt32 | src/sbatch/opt.c:1844 | the (int) conversion is in int range, congruent modulo 2^32, and the identity on values that fit |
| CLib.Atoi | src/sbatch/opt.c:283 | atoi, as glibc's (int)strtol, always lies in int range |
| SbatchArgs.GetIntOfNumber | src/sbatch/opt.c:1830-1845 | a number is accepted iff it is not negative; it is read back when it fits an int, saturated and converted to int otherwise, so beyond LONG_MAX it is -1 |
| SbatchArgs.GetIntRejectsTrailing | src/sbatch/opt.c:1833-1838 | digits followed by other characters exit; an empty argument is 0 |
| SbatchArgs.TokensAreClean | src/sbatch/opt.c:276-290 | strtok_r on ",x" yields non-empty tokens free of delimiters |
| SbatchArgs.Dimension | src/sbatch/opt.c:283 | the stored dimension is atoi truncated to 16 bits |
| SbatchArgs.DimensionOfLargeNumber | src/sbatch/opt.c:283 | a number becomes the low 16 bits of its saturated int conversion, so a number beyond LONG_MAX gives 0xffff |
| SbatchArgs.VerifyGeometry | src/sbatch/opt.c:269-301 | 0 iff there are exactly dims tokens and all are valid, with the array's first dims entries then the parsed geometry; -1 otherwise; exactly the entries the loop reached are written |
| SbatchArgs.GeometryRoundTrip | src/sbatch/opt.c:269-301 | a geometry written as print_geometry writes it is accepted and read back unchanged |
| SbatchArgs.TokensOfJoin | src/sbatch/opt.c:1811-1817 | the tokens of a printed geometry are its numbers |
| SbatchArgs.LastIndexOf | src/sbatch/opt.c:548 | strrchr: the last occurrence, or none iff the character is absent |
| SbatchArgs.BaseName | src/sbatch/opt.c:540-558 | NULL iff the command is NULL; otherwise the slash-free tail after the last slash |
| SbatchArgs.BaseNameOfPath | src/sbatch/opt.c:540-558 | the base name of dir/name is name |
| SbatchArgs.CreatePathList | src/sbatch/opt.c:1687-1718 | NULL iff PATH is unset; otherwise the non-empty colon-separated directories, in order |
| SbatchArgs.PiecesHaveNoColon | src/sbatch/opt.c:1699-1713 | no directory in the list holds a colon or is empty |
| SbatchArgs.JoinPieces | src/sbatch/opt.c:1699-1713 | the pieces, joined with colons, give PATH back |
| SbatchArgs.PathListRoundTrip | src/sbatch/opt.c:1687-1718 | a PATH made of non-empty colon-free directories is split into exactly those |
| SbatchBind.Cut | src/sbatch/opt.c:350-360 | writing a NUL changes that one position only |
| SbatchBind.SkipPrefixes | src/sbatch/opt.c:328-344 | the scan skips the quiet and verbose prefixes and a comma, and records a verbose prefix |
| SbatchBind.CutSuffixes | src/sbatch/opt.c:345-358 | a ,q/,Q suffix and then a ,v/,V suffix are cut, and the last one cut sets the verbose flag |
| SbatchBind.CutFlags | src/sbatch/opt.c:319-358 | the buffer after both cuts, the verbose flag, and the affinity start when anything is left |
| SbatchBind.SplitBindArg | src/sbatch/opt.c:307-363 | the in-place splitting yields the verbose flag, the affinity keyword and the mapping list |
| SbatchBind.ApplyBind | src/sbatch/opt.c:365-397 | 1 exactly for an affinity keyword not recognised, 0 otherwise; a mapping list replaces the bind string |
| SbatchBind.NewBindTypeVerbose | src/sbatch/opt.c:370-375 | the verbose bit afterwards is the old one or the parsed flag |
| SbatchBind.NewBindTypeKeeps | src/sbatch/opt.c:370-375 | without an affinity keyword, only the verbose bit may change |
| SbatchBind.NewBindTypeSelects | src/sbatch/opt.c:373-386 | with a recognised keyword, the type bits are exactly that keyword's bit |
| SbatchBind.VerifyCpuBind | src/sbatch/opt.c:307-398 | rc, bind string and bind type are those of the cpu specification |
| SbatchBind.VerifyMemBind | src/sbatch/opt.c:404-497 | rc, bind string and bind type are those of the mem specification |
| SbatchBind.KeywordWithList | src/sbatch/opt.c:324-363 | keyword:list splits into the keyword and the list, not verbose |
| SbatchBind.KeywordVerbose | src/sbatch/opt.c:345-358 | keyword,v is the keyword with the verbose flag |
| SbatchBind.MapCpuList | src/sbatch/opt.c:359-383 | map_cpu:list stores the list and selects MAPCPU, keeping the verbose bit |
| SbatchBind.MemLocalVerbose | src/sbatch/opt.c:467-479 | local,v selects LOCAL and sets the verbose bit |
| SbatchBind.UnknownKeywordReturnsOne | src/sbatch/opt.c:387-391 | an unrecognised keyword makes the parser return 1 |
| SbatchVerify.NormaliseCounts | src/sbatch/opt.c:1571-1619 | afterwards mincpus is at least cpus_per_task; node and process counts are defaulted and reconciled as the set flags say |
| SbatchVerify.NameJob | src/sbatch/opt.c:1574-1575 | a given job name is kept; otherwise the script's base name, which has no slash |
| SbatchVerify.NormaliseTimes | src/sbatch/opt.c:1624-1628 | --wait overrides the exit timeout, and the time limit becomes non-zero, unchanged if it was set |
| SbatchVerify.EffectiveIds | src/sbatch/opt.c:1630-1637 | uid and gid take the effective ids when those are set |
| SbatchVerify.Opt.CheckPlacement | src/sbatch/opt.c:1545-1569 | true iff none of the quiet/verbose, -Z and --relative conflicts holds |
| SbatchVerify.Opt.CheckCounts | src/sbatch/opt.c:1578-1595 | true iff processes and cpus per task are positive and the node range is sound |
| SbatchVerify.Opt.ApplyMincpus | src/sbatch/opt.c:1571-1572 | only the counts change, as RaiseMincpus says |
| SbatchVerify.Opt.ApplyJobName | src/sbatch/opt.c:1574-1575 | only the job name changes, as NameJob says |
| SbatchVerify.Opt.ApplyCountMassage | src/sbatch/opt.c:1597-1619 | only the counts change, as MassageCounts says |
| SbatchVerify.Opt.ApplyTimes | src/sbatch/opt.c:1624-1628 | only the times change, as NormaliseTimes says |
| SbatchVerify.Opt.ApplyEffectiveIds | src/sbatch/opt.c:1630-1637 | only the ids change, as EffectiveIds says |
| SbatchVerify.Opt.Verify | src/sbatch/opt.c:1541-1645 | returns whether every check passes and leaves the normalised record |
| SbatchVerify.ZeroTimeLimitIsInfinite | src/sbatch/opt.c:1627-1628 | a zero time limit becomes INFINITE as an int |
| SbatchVerify.RepeatedEgidCheckIsIdle | src/sbatch/opt.c:1633-1637 | the repeated egid test changes nothing |
| SbatchVerify.Rejections | src/sbatch/opt.c:1545-1595 | quiet with verbose, a bad node range, or -Z without a node list make it return false |
| SbatchVerify.AcceptedCounts | src/sbatch/opt.c:1578-1619 | after an accepted check the node range is sound, processes are positive and cover the minimum node count when nodes were set |
| SbatchVerify.NormaliseIdempotent | src/sbatch/opt.c:1571-1637 | normalising twice is normalising once |
| SbatchVerify.AcceptsNormalised | src/sbatch/opt.c:1541-1645 | a record accepted once is accepted again after normalisation |
| PyText.Strip | src/plugins/cli_filter/common/gen_cli_filter_common.py:126 | str.strip: the middle slice of the text, with no blank at either end |
| PyText.Split | src/plugins/cli_filter/common/gen_cli_filter_common.py:124 | str.split(sep): at least one piece, none holding the separator |
| PyText.SplitJoin | src/plugins/cli_filter/common/gen_cli_filter_common.py:124 | joining the pieces with the separator gives the text back |
| PyText.Tokens | src/plugins/cli_filter/common/gen_cli_filter_common.py:130 | str.split(): non-empty blank-free words |
| PyText.Find | src/plugins/cli_filter/common/gen_cli_filter_common.py:136 | str.find: the first occurrence, or none iff the character is absent |
| PyText.RFind | src/plugins/cli_filter/common/gen_cli_filter_common.py:193 | str.rfind: the last occurrence, or -1 when there is none |
| PyText.SortStrings | src/plugins/cli_filter/common/gen_cli_filter_common.py:162 | sorted(): an ordered permutation of the input |
| PyText.LessTransitive | src/plugins/cli_filter/common/gen_cli_filter_common.py:162 | string order is transitive (with LessIrreflexive and LessTotal, a strict total order) |
| GenCliFilter.GetPut | src/plugins/cli_filter/common/gen_cli_filter_common.py:148-151 | after memberdict[name] = v, name maps to v and every other key is unchanged |
| GenCliFilter.Put | src/plugins/cli_filter/common/gen_cli_filter_common.py:148-151 | a new key goes last and a stored key keeps its place |
| GenCliFilter.BodyOf | src/plugins/cli_filter/common/gen_cli_filter_common.py:122-123 | the struct body is the text before the first closing brace |
| GenCliFilter.NonEmpty | src/plugins/cli_filter/common/gen_cli_filter_common.py:127 | exactly the non-empty members are kept |
| GenCliFilter.MemberTextsClean | src/plugins/cli_filter/common/gen_cli_filter_common.py:124-127 | every member text is non-empty, has no blank at either end, and has no semicolon |
| GenCliFilter.NameOf | src/plugins/cli_filter/common/gen_cli_filter_common.py:131-139 | k leading stars are peeled off the name and counted as k pointer degrees |
| GenCliFilter.NameWithBound | src/plugins/cli_filter/common/gen_cli_filter_common.py:136-139 | an array bound adds one degree and is cut from the name |
| GenCliFilter.PlainDecl | src/plugins/cli_filter/common/gen_cli_filter_common.py:129-151 | "type*** **name" gives the type without stars and the stars of both words as its degree |
| GenCliFilter.ArrayDecl | src/plugins/cli_filter/common/gen_cli_filter_common.py:129-151 | "type name[n]" is the name with degree one |
| GenCliFilter.EnumDecl | src/plugins/cli_filter/common/gen_cli_filter_common.py:141-142 | an enum member has type int |
| GenCliFilter.StructDecl | src/plugins/cli_filter/common/gen_cli_filter_common.py:143-147 | a struct member has type struct_tag and its name's stars as degree |
| GenCliFilter.StructWithoutTag | src/plugins/cli_filter/common/gen_cli_filter_common.py:143-144 | a bare "struct" member fails, as data[1] raises there |
| GenCliFilter.PeelLeadingStars | src/plugins/cli_filter/common/gen_cli_filter_common.py:133-135 | the while loop peels exactly the leading stars and counts them |
| GenCliFilter.PeelTrailingStars | src/plugins/cli_filter/common/gen_cli_filter_common.py:145-147 | the while loop peels exactly the trailing stars and adds them to the degree |
| GenCliFilter.DeclaredName | src/plugins/cli_filter/common/gen_cli_filter_common.py:132-139 | the name and degree read from the last word |
| GenCliFilter.ParseMemberDecl | src/plugins/cli_filter/common/gen_cli_filter_common.py:130-151 | one member declaration's name and normalised type, or a failure |
| GenCliFilter.StripMembers | src/plugins/cli_filter/common/gen_cli_filter_common.py:125-126 | each piece is replaced by its strip(), in place |
| GenCliFilter.StoreMembers | src/plugins/cli_filter/common/gen_cli_filter_common.py:128-151 | the memberdict built from the members in order, a later duplicate overwriting the earlier one |
| GenCliFilter.BuildDictFails | src/plugins/cli_filter/common/gen_cli_filter_common.py:129-151 | once a member fails, the whole struct fails |
| GenCliFilter.MemberString | src/plugins/cli_filter/common/gen_cli_filter_common.py:120-121 | the member text starts one character after the text following '{', so that character is dropped |
| GenCliFilter.ReadMembers | src/plugins/cli_filter/common/gen_cli_filter_common.py:120-152 | the memberdict of the struct whose text after '{' is given, read with its first character dropped |
| GenCliFilter.SkippedCharacter | src/plugins/cli_filter/common/gen_cli_filter_common.py:120-127 | whatever character follows '{' is dropped: "{ int a; }" gives the member "int a", "{int a; }" gives "nt a" |
| GenCliFilter.LastMatch | src/plugins/cli_filter/common/gen_cli_filter_common.py:165-173 | the last interface entry that matches by type and degree or by name, or none when none matches |
| GenCliFilter.FindInterface | src/plugins/cli_filter/common/gen_cli_filter_common.py:164-178 | the loop without a break settles on the last matching entry |
| GenCliFilter.CountText | src/plugins/cli_filter/common/gen_cli_filter_common.py:179-181 | the count field in quotes, or NULL |
| GenCliFilter.Mapped | src/plugins/cli_filter/common/gen_cli_filter_common.py:161-185 | each mapped member has the entry it settles on, and every member something matches is mapped |
| GenCliFilter.MappedSorted | src/plugins/cli_filter/common/gen_cli_filter_common.py:162-185 | the mapped members stay in sorted order |
| GenCliFilter.RowsInSortedOrder | src/plugins/cli_filter/common/gen_cli_filter_common.py:162 | rows come out in sorted member order |
| GenCliFilter.SortedMembers | src/plugins/cli_filter/common/gen_cli_filter_common.py:162 | the sorted keys are exactly the memberdict's keys |
| GenCliFilter.BreakAt | src/plugins/cli_filter/common/gen_cli_filter_common.py:191-193 | the break point is within 71 columns and is a blank (or -1), with no blank between it and the column limit |
| GenCliFilter.RowLinesShape | src/plugins/cli_filter/common/gen_cli_filter_common.py:190-198 | a short row prints whole with a comma; a long one as two lines that rebuild it, the second indented and ending in the comma |
| GenCliFilter.RowFits | src/plugins/cli_filter/common/gen_cli_filter_common.py:191-197 | the first line of a broken row fits in 71 columns |
| GenCliFilter.NoTableWithoutRows | src/plugins/cli_filter/common/gen_cli_filter_common.py:186-187 | a struct prints nothing iff none of its members is mapped |
| GenCliFilter.TableShape | src/plugins/cli_filter/common/gen_cli_filter_common.py:188-200 | a printed table opens with its declaration and ends with the terminator row and the closing brace |
| GenCliFilter.MappedRows | src/plugins/cli_filter/common/gen_cli_filter_common.py:161-185 | the loop collects one row per mapped member, in sorted order |
| GenCliFilter.PrintRow | src/plugins/cli_filter/common/gen_cli_filter_common.py:190-198 | the lines one row prints |
| GenCliFilter.StructTable | src/plugins/cli_filter/common/gen_cli_filter_common.py:160-200 | the lines printed for one struct |
| GenCliFilter.GenInterface | src/plugins/cli_filter/common/gen_cli_filter_common.py:157-200 | the include lines, then each struct's table in dict order |

## Left out

- `cli_filter_lua.c`: Lua interpreter glue (stack handling, script loading, doubles). Its option search repeats `cli_si_find`.
- The typed accessors other than string, int, boolean and string array (`long`, `unsigned`, the sized integers, `uid_t`, `gid_t`, `time_t`). They follow the int pattern with other C widths, and the model does not reproduce those widths.
- The raw `data + offset` struct access. The option record is a map from field name to value, and an entry names its field.
- CliFilterTable.CliSiGet / CliFilterTable.CliSiSet / CliFilterJson.CliGenJson: these require a known client id. For any other id the C code passes a NULL table to `cli_si_find`, which reads through it.
- CliFilterJson.JsonEscape: the buffer growth (`len` doubling with `xrealloc`) is not modelled. The output is a sequence, so it never overflows.
- CliFilterJson.JsonEscape / CliFilterJson.CliGenEnvJson: strings are sequences of characters, not bytes. The C loop walks bytes and counts the `MAX_STR_LEN` cap in bytes. On non-ASCII input the cap therefore falls at a different place, and C can cut inside a multi-byte UTF-8 sequence, which the model cannot express.
- `environ` and `job_list` are passed in as sequences. Node bitmaps are sets of node indices, and `bit_overlap` is set intersection.
- PartitionPrio.ListSort: `list_sort`'s order among jobs with equal keys is not specified by the source. The model promises a sorted permutation, not a particular tie order.
- SbatchScript.OptBatchScript: the compare length of the directive prefix is a parameter. The source's `sizeof(magic_word)` is 8 on a 64-bit build. Handing argv to `_set_options` (getopt) is not modelled.
- SbatchScript.OptBatchScript / SbatchScript.DirectivesFrom / SbatchScript.DirectiveArgs / SbatchScript.ScriptArgs: they require a compare length of at least 7, the length of "#SBATCH", which excludes a 32-bit build. There `sizeof(char *)` is 4, so only "#SBA" is compared. `ptr = line + strlen(magic_word)` then points past the end of a line as short as "#SBA", and C reads beyond it.
- SbatchScript.GetArgument / SbatchScript.ArgScan: the argument is copied into `char argument[BUFSIZ]` with no bound. An argument of BUFSIZ characters or more overflows that stack buffer, which is undefined behaviour. The model returns such an argument whole.
- The `void *` buffer and `size` of `_next_line` are a string. A NUL inside a line ends the copied line, as `xstrndup` would. The C loop reads the byte at `buf + size` before it tests the bound. The model tests the bound first.
- `_set_options`, `process_options_first_pass`/`process_options_second_pass`, `_opt_default`, `_opt_env`, `_process_env_var`, `_search_path`, `_fullpath`, `_valid_node_list`, `_help`, `_usage`, `_opt_list` and `print_constraints`/`print_commandline`. They are getopt, environment, file-system and printing plumbing.
- `_verify_node_count`: it parses with `strtod` and scales doubles.
- SbatchArgs.VerifyGeometry: `SYSTEM_DIMENSIONS` is the parameter `dims`. The geometry array is an `array<nat>` whose stored values are already truncated to 16 bits.
- SbatchArgs.ToBytes requires a non-empty argument. For "" the C code reads `buf[-1]`. `strtol` saturates, but the `long` arithmetic after it (the multiplication by 1024 and the negation) is unbounded in the model, where C would overflow.
- SbatchVerify.Opt.Verify: `parse_rlimits` is external. Its answer for `--propagate` is the parameter `rlimitsInvalid`.
- Logging (`error`, `info`, `debug*`) and plugin `init`/`fini` are not modelled.
- Headers that define constants are not part of this model; the model uses these values:
  - `MAIL_JOB_BEGIN/END/FAIL` = 1/2/4;
  - `PREEMPT_MODE_OFF` = 0 and `PREEMPT_MODE_GANG` = 0x8000;
  - `NO_VAL` = 0xfffffffe and `INFINITE` = 0xffffffff;
  - the client ids `CLI_SALLOC`..`CLI_SBCAST` = 0..3;
  - the `CPU_BIND_*`/`MEM_BIND_*` bits;
  - `MAX_STR_LEN` = 524288.
- `gen_cli_filter_common.py`:
  - The `cpp` subprocess and the regex search for struct headers are not modelled. The model starts from the text after the matched '{'. From there it drops one character, as `match.end() + 1` does (GenCliFilter.MemberString).
  - `main`'s argument classification with `os.path.exists` is not modelled.
  - The `string_iface`/`lua_iface` tables are data, and the model takes them as a parameter.
  - A Python exception (`struct` without a tag, where `data[1]` raises) is a failed parse of the whole struct.
  - `print` is modelled as the list of lines returned.
- Python's `sorted()` on strings compares code points. The model's order is the code-point order on `char`.

## Findings

| source | as written | input that shows it | evidently intended | confidence | as-written member | corrected member |
|---|---|---|---|---|---|---|
| src/sbatch/opt.c:1209 | `strncmp(line, magic_word, sizeof(magic_word))` compares the size of a `char *` (8 bytes on 64-bit builds), which includes the terminator of "#SBATCH" | the line `#SBATCH --time=10` is not taken as a directive; only a line that is exactly `#SBATCH` matches, and it has no arguments | compare `strlen(magic_word)` characters, so every line starting with `#SBATCH` is a directive | not executed | SbatchScript.AsWrittenCollectsNothing | SbatchScript.DirectiveLineRoundTrip |
