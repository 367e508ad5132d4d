/**
 * How sbatch collects options from the "#SBATCH" lines of a batch script:
 * the script is cut into lines, every line that starts with the magic word
 * is scanned for shell-like arguments (quotes group, a backslash escapes
 * the next character, an unescaped '#' starts a comment), and the
 * arguments form an argv whose first element is empty.
 */
module SbatchScript {
  import opened CLib

  const MAGIC_WORD: string := "#SBATCH"

  /** Index of the newline that ends the line starting at i, or the end of the buffer. */
  function LineBreak(buf: string, i: nat): (j: nat)
    requires i <= |buf|
    ensures i <= j <= |buf| && (j < |buf| ==> buf[j] == '\n')
    ensures forall k :: i <= k < j ==> buf[k] != '\n'
    decreases |buf| - i
  {
    if i == |buf| || buf[i] == '\n' then i else LineBreak(buf, i + 1)
  }

  /** Where the line after the one starting at i begins: just past its newline. */
  function NextStart(buf: string, i: nat): (j: nat)
    requires i < |buf|
    ensures i < j <= |buf|
  {
    var b := LineBreak(buf, i);
    if b < |buf| then b + 1 else b
  }

  /** xstrndup: the copy stops at the first NUL. */
  function Truncate(s: string): (t: string)
    ensures NoNul(t) && |t| <= |s|
    ensures forall k :: 0 <= k < |t| ==> t[k] == s[k]
  {
    CStrAt(s, 0)
  }

  /**
   * _next_line: the line starting at state, with its newline, and the
   * position after it; nothing once state has reached the end. A NULL
   * state is the start of the buffer.
   */
  method NextLine(buf: string, state: nat) returns (line: Option<string>, next: nat)
    ensures state >= |buf| ==> line == None && next == state
    ensures state < |buf| ==> next == NextStart(buf, state) && line == Some(Truncate(buf[state..next]))
  {
    if state >= |buf| {
      return None, state;
    }
    var ptr := state;
    while ptr < |buf| && buf[ptr] != '\n'
      invariant state <= ptr <= |buf|
      invariant LineBreak(buf, state) == LineBreak(buf, ptr)
    {
      ptr := ptr + 1;
    }
    if ptr < |buf| && buf[ptr] == '\n' {
      ptr := ptr + 1;
    }
    line := Some(Truncate(buf[state..ptr]));
    next := ptr;
  }

  /** The raw lines of the buffer from position i on, each with its newline. */
  function Segments(buf: string, i: nat): seq<string>
    requires i <= |buf|
    decreases |buf| - i
  {
    if i == |buf| then [] else [buf[i..NextStart(buf, i)]] + Segments(buf, NextStart(buf, i))
  }

  function Concat(ss: seq<string>): string
  {
    if ss == [] then "" else ss[0] + Concat(ss[1..])
  }

  /** The lines _next_line hands out, put back together, are the buffer. */
  lemma {:induction false} SegmentsCover(buf: string, i: nat)
    requires i <= |buf|
    ensures Concat(Segments(buf, i)) == buf[i..]
    decreases |buf| - i
  {
    if i < |buf| {
      var j := NextStart(buf, i);
      SegmentsCover(buf, j);
      assert buf[i..] == buf[i..j] + buf[j..];
    }
  }

  /** Every line is non-empty and holds a newline only as its last character. */
  lemma {:induction false} SegmentsAreLines(buf: string, i: nat)
    requires i <= |buf|
    ensures forall k :: 0 <= k < |Segments(buf, i)| ==>
              var l := Segments(buf, i)[k];
              |l| > 0 && forall c :: 0 <= c < |l| - 1 ==> l[c] != '\n'
    decreases |buf| - i
  {
    if i < |buf| {
      SegmentsAreLines(buf, NextStart(buf, i));
    }
  }

  /** What the argument scanner has copied and where it stopped. */
  datatype Scan = Scan(chars: string, end: nat)

  /**
   * The copying loop of _get_argument from index i, with the escape and
   * quote flags: it runs until whitespace outside quotes, a newline, the
   * end of the string, or an unescaped '#'.
   */
  function ArgScan(s: string, i: nat, escape: bool, quoted: bool): (r: Scan)
    requires i <= |s|
    ensures i <= r.end <= |s| && |r.chars| <= r.end - i
    decreases |s| - i
  {
    var c := At(s, i);
    if !((quoted || !IsSpace(c)) && c != '\n' && c != '\0') then Scan("", i)
    else if escape then
      var r := ArgScan(s, i + 1, false, quoted); Scan([c] + r.chars, r.end)
    else if c == '\\' then ArgScan(s, i + 1, true, quoted)
    else if c == '"' then ArgScan(s, i + 1, false, !quoted)
    else if c == '#' then Scan("", i)
    else
      var r := ArgScan(s, i + 1, false, quoted); Scan([c] + r.chars, r.end)
  }

  /** The result of _get_argument: the argument, if any, and the characters consumed. */
  datatype Argument = Argument(arg: Option<string>, skipped: nat)

  function GetArgumentSpec(line: string): (r: Argument)
    ensures r.skipped <= |line|
    ensures r.arg.Some? ==> r.skipped > 0 && |r.arg.value| > 0
  {
    var i := SkipSpace(line, 0);
    if At(line, i) == '\0' then Argument(None, 0)
    else
      var r := ArgScan(line, i, false, false);
      if |r.chars| > 0 then Argument(Some(r.chars), r.end) else Argument(None, r.end)
  }

  /** _get_argument */
  method GetArgument(line: string) returns (arg: Option<string>, skipped: nat)
    ensures Argument(arg, skipped) == GetArgumentSpec(line)
  {
    var ptr := 0;
    while IsSpace(At(line, ptr)) && At(line, ptr) != '\0'
      invariant ptr <= |line|
      invariant SkipSpace(line, ptr) == SkipSpace(line, 0)
      decreases |line| - ptr
    {
      ptr := ptr + 1;
    }
    assert SkipSpace(line, ptr) == ptr;
    if At(line, ptr) == '\0' {
      assert GetArgumentSpec(line) == Argument(None, 0);
      return None, 0;
    }
    ghost var whole := ArgScan(line, ptr, false, false);
    assert GetArgumentSpec(line) ==
           if |whole.chars| > 0 then Argument(Some(whole.chars), whole.end) else Argument(None, whole.end);
    var argument := "";
    var escape := false;
    var quoted := false;
    while (quoted || !IsSpace(At(line, ptr))) && At(line, ptr) != '\n' && At(line, ptr) != '\0'
      invariant ptr <= |line|
      invariant argument + ArgScan(line, ptr, escape, quoted).chars == whole.chars
      invariant ArgScan(line, ptr, escape, quoted).end == whole.end
      decreases |line| - ptr
    {
      var c := line[ptr];
      if escape {
        SeqAppendAssoc(argument, [c], ArgScan(line, ptr + 1, false, quoted).chars);
        escape := false;
        argument := argument + [c];
        ptr := ptr + 1;
      } else if c == '\\' {
        escape := true;
        ptr := ptr + 1;
      } else if c == '"' {
        quoted := !quoted;
        ptr := ptr + 1;
      } else if c == '#' {
        break;
      } else {
        SeqAppendAssoc(argument, [c], ArgScan(line, ptr + 1, false, quoted).chars);
        argument := argument + [c];
        ptr := ptr + 1;
      }
    }
    assert ArgScan(line, ptr, escape, quoted) == Scan("", ptr);
    assert argument == whole.chars;
    assert ptr == whole.end;
    skipped := ptr;
    arg := if |argument| > 0 then Some(argument) else None;
  }

  /** The arguments _get_argument finds when called until it returns NULL. */
  function ArgsOf(s: string): seq<string>
    decreases |s|
  {
    var g := GetArgumentSpec(s);
    if g.arg.None? then [] else [g.arg.value] + ArgsOf(s[g.skipped..])
  }

  lemma ArgsOfNext(s: string)
    ensures var g := GetArgumentSpec(s);
            ArgsOf(s) == if g.arg.None? then [] else [g.arg.value] + ArgsOf(s[g.skipped..])
  {
  }

  /** Taking one argument off the front keeps the arguments still to come. */
  lemma ArgsAdvance(rest: string, found: seq<string>)
    requires GetArgumentSpec(rest).arg.Some?
    ensures var g := GetArgumentSpec(rest);
            found + ArgsOf(rest) == (found + [g.arg.value]) + ArgsOf(rest[g.skipped..])
  {
    var g := GetArgumentSpec(rest);
    ArgsOfNext(rest);
    SeqAppendAssoc(found, [g.arg.value], ArgsOf(rest[g.skipped..]));
  }

  /** The arguments of one line, for a magic-word compare over cmpLen characters. */
  function DirectiveArgs(line: string, cmpLen: nat): seq<string>
    requires NoNul(line) && cmpLen >= |MAGIC_WORD|
  {
    if NEq(line, MAGIC_WORD, cmpLen) then
      NEqLong(line, MAGIC_WORD, cmpLen);
      ArgsOf(line[|MAGIC_WORD|..])
    else []
  }

  /** The arguments of the lines from position i on. */
  function DirectivesFrom(body: string, i: nat, cmpLen: nat): seq<string>
    requires i <= |body| && cmpLen >= |MAGIC_WORD|
    decreases |body| - i
  {
    if i == |body| then []
    else
      var j := NextStart(body, i);
      DirectiveArgs(Truncate(body[i..j]), cmpLen) + DirectivesFrom(body, j, cmpLen)
  }

  /** The argv _opt_batch_script builds: an empty argv[0], then every directive argument. */
  function ScriptArgs(body: string, cmpLen: nat): seq<string>
    requires cmpLen >= |MAGIC_WORD|
  {
    [""] + DirectivesFrom(body, 0, cmpLen)
  }

  /**
   * _opt_batch_script, with the magic word compared over cmpLen characters:
   * sizeof(magic_word) as written (see ComparesPointerSize), its length
   * once corrected.
   */
  method OptBatchScript(body: string, cmpLen: nat) returns (argv: seq<string>)
    requires cmpLen >= |MAGIC_WORD|
    ensures argv == ScriptArgs(body, cmpLen)
  {
    argv := [""];
    var state := 0;
    while true
      invariant state <= |body|
      invariant argv + DirectivesFrom(body, state, cmpLen) == ScriptArgs(body, cmpLen)
      decreases |body| - state
    {
      var line, next := NextLine(body, state);
      if line.None? {
        assert DirectivesFrom(body, state, cmpLen) == [];
        break;
      }
      ghost var rest := DirectivesFrom(body, next, cmpLen);
      DirectivesStep(body, state, cmpLen);
      if !NEq(line.value, MAGIC_WORD, cmpLen) {
        assert DirectiveArgs(line.value, cmpLen) == [];
        assert rest == [] + rest;
        state := next;
        continue;
      }
      var l := line.value;
      var found := LineArguments(l, cmpLen);
      SeqAppendAssoc(argv, found, rest);
      argv := argv + found;
      state := next;
    }
  }

  /** One line of the script contributes its directive arguments ahead of the rest. */
  lemma DirectivesStep(body: string, i: nat, cmpLen: nat)
    requires i < |body| && cmpLen >= |MAGIC_WORD|
    ensures DirectivesFrom(body, i, cmpLen)
         == DirectiveArgs(Truncate(body[i..NextStart(body, i)]), cmpLen) + DirectivesFrom(body, NextStart(body, i), cmpLen)
  {
  }

  /** The argument-collecting loop of _opt_batch_script, for one line that starts with the magic word. */
  method LineArguments(l: string, cmpLen: nat) returns (found: seq<string>)
    requires NoNul(l) && cmpLen >= |MAGIC_WORD| && NEq(l, MAGIC_WORD, cmpLen)
    ensures found == DirectiveArgs(l, cmpLen)
  {
    NEqLong(l, MAGIC_WORD, cmpLen);
    found := [];
    // ptr of the source: the text not yet scanned
    var rest := l[|MAGIC_WORD|..];
    while true
      invariant found + ArgsOf(rest) == ArgsOf(l[|MAGIC_WORD|..])
      decreases |rest|
    {
      var option, skipped := GetArgument(rest);
      if option.None? {
        assert ArgsOf(rest) == [] by { ArgsOfNext(rest); }
        assert found + [] == found;
        break;
      }
      ArgsAdvance(rest, found);
      found := found + [option.value];
      rest := rest[skipped..];
    }
  }

  /**
   * As written, the compare runs over sizeof(magic_word), the size of a
   * pointer: 8 on a 64-bit host. The eighth character compared is the
   * terminator of the magic word, so only a line that is exactly "#SBATCH",
   * without even its newline, matches.
   */
  lemma ComparesPointerSize(line: string)
    requires NoNul(line)
    ensures NEq(line, MAGIC_WORD, 8) <==> line == MAGIC_WORD
  {
    NEqExact(line, MAGIC_WORD);
  }

  lemma {:induction false} PointerSizeDirectivesFrom(body: string, i: nat)
    requires i <= |body|
    ensures DirectivesFrom(body, i, 8) == []
    decreases |body| - i
  {
    if i < |body| {
      var j := NextStart(body, i);
      var l := Truncate(body[i..j]);
      ComparesPointerSize(l);
      if NEq(l, MAGIC_WORD, 8) {
        assert l[|MAGIC_WORD|..] == "";
      }
      PointerSizeDirectivesFrom(body, j);
    }
  }

  /** Hence, as written, no script directive ever reaches the option parser. */
  lemma AsWrittenCollectsNothing(body: string)
    ensures ScriptArgs(body, 8) == [""]
  {
    PointerSizeDirectivesFrom(body, 0);
  }

  /** A backslash before every character. */
  function Backslashed(w: string): string
  {
    if w == [] then "" else ['\\', w[0]] + Backslashed(w[1..])
  }

  /** An argument written so that _get_argument reads it back verbatim: quoted, every character escaped. */
  function Quote(w: string): string
  {
    "\"" + Backslashed(w) + "\""
  }

  /** Arguments written one after another, each preceded by a space. */
  function QuoteAll(ws: seq<string>): string
  {
    if ws == [] then "" else " " + Quote(ws[0]) + QuoteAll(ws[1..])
  }

  /** A word that can stand in a script line: no newline and no NUL. */
  predicate Writable(w: string)
  {
    forall k :: 0 <= k < |w| ==> w[k] != '\n' && w[k] != '\0'
  }

  /** Inside quotes, a backslash and the character after it copy that character. */
  lemma EscapedPair(s: string, i: nat, w: string, rest: Scan)
    requires w != [] && i + 2 <= |s| && s[i] == '\\' && s[i + 1] == w[0] && s[i + 1] != '\n' && s[i + 1] != '\0'
    requires ArgScan(s, i + 2, false, true) == Scan(w[1..] + rest.chars, rest.end)
    ensures ArgScan(s, i, false, true) == Scan(w + rest.chars, rest.end)
  {
    assert [w[0]] + (w[1..] + rest.chars) == w + rest.chars;
  }

  lemma BackslashedHead(s: string, i: nat, w: string)
    requires w != [] && i + 2 * |w| <= |s| && s[i..i + 2 * |w|] == Backslashed(w)
    ensures s[i] == '\\' && s[i + 1] == w[0]
    ensures s[i + 2..i + 2 + 2 * |w[1..]|] == Backslashed(w[1..])
  {
    var b := s[i..i + 2 * |w|];
    assert b == ['\\', w[0]] + Backslashed(w[1..]);
    assert b[0] == s[i] && b[1] == s[i + 1];
    assert b[2..] == Backslashed(w[1..]);
    assert i + 2 + 2 * |w[1..]| == i + 2 * |w|;
    assert b[2..] == s[i + 2..i + 2 * |w|];
  }

  lemma {:induction false} ScanBackslashed(s: string, i: nat, w: string)
    requires Writable(w) && i + 2 * |w| <= |s| && s[i..i + 2 * |w|] == Backslashed(w)
    ensures var r := ArgScan(s, i + 2 * |w|, false, true);
            ArgScan(s, i, false, true) == Scan(w + r.chars, r.end)
    decreases |w|
  {
    if w != [] {
      BackslashedHead(s, i, w);
      ScanBackslashed(s, i + 2, w[1..]);
      EscapedPair(s, i, w, ArgScan(s, i + 2 * |w|, false, true));
    }
  }

  /** Nothing more to read: blanks, then the end of the line or a comment. */
  predicate NoMoreArgs(t: string)
  {
    var i := SkipSpace(t, 0);
    At(t, i) == '\0' || At(t, i) == '#'
  }

  lemma {:induction false} QuotedArgument(w: string, t: string)
    requires |w| > 0 && Writable(w)
    requires t == [] || IsSpace(t[0]) || t[0] == '#'
    ensures GetArgumentSpec(" " + Quote(w) + t) == Argument(Some(w), 1 + |Quote(w)|)
  {
    var b := Backslashed(w);
    var s := " " + Quote(w) + t;
    var n := 2 * |w|;
    BackslashedLength(w);
    assert s == [' ', '"'] + b + ['"'] + t;
    assert s[0] == ' ' && s[1] == '"' && s[2 + n] == '"';
    assert SkipSpace(s, 1) == 1;
    assert SkipSpace(s, 0) == 1;
    assert s[2..2 + n] == b;
    assert ArgScan(s, 1, false, false) == ArgScan(s, 2, false, true);
    ScanBackslashed(s, 2, w);
    assert ArgScan(s, 2 + n, false, true) == ArgScan(s, 3 + n, false, false);
    assert At(s, 3 + n) == (if t == [] then '\0' else t[0]);
    assert ArgScan(s, 3 + n, false, false) == Scan("", 3 + n);
    assert w + "" == w;
    assert ArgScan(s, 1, false, false) == Scan(w, 3 + n);
    assert |Quote(w)| == n + 2;
  }

  lemma {:induction false} BackslashedLength(w: string)
    ensures |Backslashed(w)| == 2 * |w|
  {
    if w != [] {
      BackslashedLength(w[1..]);
    }
  }

  lemma {:induction false} NoMoreArgsEnds(t: string)
    requires NoMoreArgs(t)
    ensures ArgsOf(t) == []
  {
    var i := SkipSpace(t, 0);
    if At(t, i) == '#' {
      assert ArgScan(t, i, false, false) == Scan("", i);
    }
  }

  /**
   * Quoting every character and the whole argument is a faithful encoding:
   * the scanner reads back exactly the words written, whatever spaces,
   * quotes, backslashes or '#' they hold.
   */
  lemma {:induction false} ArgsOfQuoteAll(ws: seq<string>, t: string)
    requires forall k :: 0 <= k < |ws| ==> |ws[k]| > 0 && Writable(ws[k])
    requires NoMoreArgs(t) && (t == [] || IsSpace(t[0]) || t[0] == '#')
    ensures ArgsOf(QuoteAll(ws) + t) == ws
  {
    if ws == [] {
      assert QuoteAll(ws) + t == t;
      NoMoreArgsEnds(t);
    } else {
      QuotedFirst(ws, t);
      ArgsOfQuoteAll(ws[1..], t);
    }
  }

  /** The first quoted word is read first, and the rest from where it ends. */
  lemma QuotedFirst(ws: seq<string>, t: string)
    requires ws != [] && |ws[0]| > 0 && Writable(ws[0])
    requires QuoteAll(ws[1..]) + t == [] || IsSpace((QuoteAll(ws[1..]) + t)[0]) || (QuoteAll(ws[1..]) + t)[0] == '#'
    ensures ArgsOf(QuoteAll(ws) + t) == [ws[0]] + ArgsOf(QuoteAll(ws[1..]) + t)
  {
    var rest := QuoteAll(ws[1..]) + t;
    var q := " " + Quote(ws[0]);
    assert QuoteAll(ws) + t == q + rest by {
      assert QuoteAll(ws) == q + QuoteAll(ws[1..]);
    }
    QuotedArgument(ws[0], rest);
    ArgsOfFirst(q, rest, ws[0]);
  }

  /** Once the first argument is read, the rest are read from where it ended. */
  lemma ArgsOfFirst(q: string, rest: string, w: string)
    requires GetArgumentSpec(q + rest) == Argument(Some(w), |q|)
    ensures ArgsOf(q + rest) == [w] + ArgsOf(rest)
  {
    assert (q + rest)[|q|..] == rest;
  }

  lemma {:induction false} BackslashedWritable(w: string)
    requires Writable(w)
    ensures Writable(Backslashed(w))
  {
    if w != [] {
      BackslashedWritable(w[1..]);
    }
  }

  lemma {:induction false} QuoteAllWritable(ws: seq<string>)
    requires forall k :: 0 <= k < |ws| ==> Writable(ws[k])
    ensures Writable(QuoteAll(ws))
  {
    if ws != [] {
      BackslashedWritable(ws[0]);
      QuoteAllWritable(ws[1..]);
    }
  }

  lemma {:induction false} LineBreakAt(buf: string, i: nat, j: nat)
    requires i <= j < |buf| && buf[j] == '\n' && forall k :: i <= k < j ==> buf[k] != '\n'
    ensures LineBreak(buf, i) == j
    decreases j - i
  {
    if i < j {
      LineBreakAt(buf, i + 1, j);
    }
  }

  lemma {:induction false} CStrEndWhole(s: string, i: nat)
    requires i <= |s| && forall k :: i <= k < |s| ==> s[k] != '\0'
    ensures CStrEnd(s, i) == |s|
    decreases |s| - i
  {
    if i < |s| {
      CStrEndWhole(s, i + 1);
    }
  }

  /** A script of one directive line yields the words on it, after the empty argv[0]. */
  lemma DirectiveLineRoundTrip(ws: seq<string>)
    requires forall k :: 0 <= k < |ws| ==> |ws[k]| > 0 && Writable(ws[k])
    ensures ScriptArgs(MAGIC_WORD + QuoteAll(ws) + "\n", |MAGIC_WORD|) == [""] + ws
  {
    var q := QuoteAll(ws);
    var body := MAGIC_WORD + q + "\n";
    var n := |body|;
    QuoteAllWritable(ws);
    assert Writable(body[..n - 1]) by {
      assert body[..n - 1] == MAGIC_WORD + q;
    }
    LineBreakAt(body, 0, n - 1);
    assert NextStart(body, 0) == n;
    CStrEndWhole(body, 0);
    assert Truncate(body[0..n]) == body by {
      assert body[0..n] == body;
    }
    NEqIsPrefix(body, MAGIC_WORD);
    assert body[..|MAGIC_WORD|] == MAGIC_WORD;
    assert body[|MAGIC_WORD|..] == q + "\n";
    assert NoMoreArgs("\n") by {
      assert SkipSpace("\n", 0) == 1;
    }
    ArgsOfQuoteAll(ws, "\n");
    assert DirectivesFrom(body, 0, |MAGIC_WORD|) == DirectiveArgs(body, |MAGIC_WORD|) + [];
  }
}
