/**
 * The pieces of Python's str the table generator relies on: whitespace
 * as str.split() and str.strip() know it, split on a separator, split on
 * whitespace runs, find, and the ordering sorted() uses on strings.
 */
module PyText {
  /** A character Python's str.isspace() accepts. */
  predicate IsWs(c: char)
  {
    c == ' ' || ('\t' <= c <= '\r') || ('\U{1c}' <= c <= '\U{1f}') ||
    c == '\U{85}' || c == '\U{a0}' || c == '\U{1680}' || ('\U{2000}' <= c <= '\U{200a}') ||
    c == '\U{2028}' || c == '\U{2029}' || c == '\U{202f}' || c == '\U{205f}' || c == '\U{3000}'
  }

  predicate NoWs(s: string)
  {
    forall k :: 0 <= k < |s| ==> !IsWs(s[k])
  }

  /** s.lstrip() */
  function LStrip(s: string): (r: string)
    ensures |r| <= |s| && r == s[|s| - |r|..]
    ensures |r| > 0 ==> !IsWs(r[0])
    ensures forall k :: 0 <= k < |s| - |r| ==> IsWs(s[k])
  {
    if |s| > 0 && IsWs(s[0]) then LStrip(s[1..]) else s
  }

  /** s.rstrip() */
  function RStrip(s: string): (r: string)
    ensures |r| <= |s| && r == s[..|r|]
    ensures |r| > 0 ==> !IsWs(r[|r| - 1])
    ensures forall k :: |r| <= k < |s| ==> IsWs(s[k])
  {
    if |s| > 0 && IsWs(s[|s| - 1]) then RStrip(s[..|s| - 1]) else s
  }

  /** s.strip(): the slice of s left once blanks are cut from both ends. */
  function Strip(s: string): (r: string)
    ensures |r| > 0 ==> !IsWs(r[0]) && !IsWs(r[|r| - 1])
    ensures var i := |s| - |LStrip(s)|; i + |r| <= |s| && r == s[i..i + |r|]
  {
    var l := LStrip(s);
    var r := RStrip(l);
    assert r == l[..|r|];
    r
  }

  /** A string that starts and ends with a non-blank character is its own strip. */
  lemma StripClean(s: string)
    requires |s| > 0 && !IsWs(s[0]) && !IsWs(s[|s| - 1])
    ensures Strip(s) == s
  {
  }

  /** s.split(sep) for a one-character separator: the pieces between separators. */
  function Split(s: string, sep: char): (r: seq<string>)
    ensures |r| > 0
    ensures forall k :: 0 <= k < |r| ==> sep !in r[k]
  {
    if |s| == 0 then [""]
    else
      var rest := Split(s[1..], sep);
      if s[0] == sep then [""] + rest
      else [[s[0]] + rest[0]] + rest[1..]
  }

  /** sep.join(ws) */
  function Join(ws: seq<string>, sep: char): string
  {
    if |ws| == 0 then ""
    else if |ws| == 1 then ws[0]
    else ws[0] + [sep] + Join(ws[1..], sep)
  }

  /** Joining the pieces gives back the string that was split. */
  lemma {:induction false} SplitJoin(s: string, sep: char)
    ensures Join(Split(s, sep), sep) == s
  {
    if |s| > 0 {
      var rest := Split(s[1..], sep);
      SplitJoin(s[1..], sep);
      if s[0] == sep {
        assert Split(s, sep)[1..] == rest;
      } else if |rest| == 1 {
        assert Split(s, sep) == [[s[0]] + rest[0]];
      } else {
        var r := Split(s, sep);
        assert r[1..] == rest[1..];
        assert Join(rest, sep) == rest[0] + [sep] + Join(rest[1..], sep);
      }
    }
  }

  /** The length of the run of non-blank characters s starts with. */
  function WordLen(s: string): (n: nat)
    ensures n <= |s| && NoWs(s[..n]) && (n < |s| ==> IsWs(s[n]))
  {
    if |s| == 0 || IsWs(s[0]) then 0
    else
      var n := WordLen(s[1..]);
      assert s[..n + 1] == [s[0]] + s[1..][..n];
      n + 1
  }

  /** s.split(): the maximal runs of non-blank characters, in order. */
  function Tokens(s: string): (r: seq<string>)
    ensures forall k :: 0 <= k < |r| ==> |r[k]| > 0 && NoWs(r[k])
    decreases |s|
  {
    if |s| == 0 then []
    else if IsWs(s[0]) then Tokens(s[1..])
    else
      var n := WordLen(s);
      [s[..n]] + Tokens(s[n..])
  }

  /** A word followed by nothing or by whitespace is the first token. */
  lemma WordThen(w: string, rest: string)
    requires |w| > 0 && NoWs(w) && (|rest| > 0 ==> IsWs(rest[0]))
    ensures Tokens(w + rest) == [w] + Tokens(rest)
  {
    var s := w + rest;
    WordLenOf(w, rest);
    assert s[..|w|] == w && s[|w|..] == rest;
  }

  lemma {:induction false} WordLenOf(w: string, rest: string)
    requires NoWs(w) && (|rest| > 0 ==> IsWs(rest[0]))
    ensures WordLen(w + rest) == |w|
  {
    if |w| > 0 {
      assert (w + rest)[1..] == w[1..] + rest;
      WordLenOf(w[1..], rest);
    }
  }

  /** Whitespace in front changes no token. */
  lemma {:induction false} BlankThen(b: string, rest: string)
    requires forall k :: 0 <= k < |b| ==> IsWs(b[k])
    ensures Tokens(b + rest) == Tokens(rest)
  {
    if |b| > 0 {
      assert (b + rest)[0] == b[0];
      assert (b + rest)[1..] == b[1..] + rest;
      BlankThen(b[1..], rest);
    } else {
      assert b + rest == rest;
    }
  }

  /** s.find(c): the first index of c, or None for Python's -1. */
  function Find(s: string, c: char): (r: Option<nat>)
    ensures r.Some? ==> r.value < |s| && s[r.value] == c && c !in s[..r.value]
    ensures r.None? <==> c !in s
  {
    if |s| == 0 then None
    else if s[0] == c then Some(0)
    else
      match Find(s[1..], c)
      case None => None
      case Some(i) =>
        assert s[..i + 1] == [s[0]] + s[1..][..i];
        Some(i + 1)
  }

  /** s.rfind(c): the last index of c, or -1. */
  function RFind(s: string, c: char): (r: int)
    ensures -1 <= r < |s| && (r >= 0 ==> s[r] == c)
    ensures forall k :: r < k < |s| ==> s[k] != c
  {
    if |s| == 0 then -1
    else if s[|s| - 1] == c then |s| - 1
    else RFind(s[..|s| - 1], c)
  }

  datatype Option<T> = None | Some(value: T)

  /** a < b as Python orders str: by code point, a proper prefix first. */
  predicate Less(a: string, b: string)
  {
    if |a| == 0 then |b| > 0
    else if |b| == 0 then false
    else if a[0] != b[0] then a[0] < b[0]
    else Less(a[1..], b[1..])
  }

  predicate LessEq(a: string, b: string)
  {
    a == b || Less(a, b)
  }

  lemma {:induction false} LessIrreflexive(a: string)
    ensures !Less(a, a)
  {
    if |a| > 0 {
      LessIrreflexive(a[1..]);
    }
  }

  lemma {:induction false} LessTransitive(a: string, b: string, c: string)
    requires Less(a, b) && Less(b, c)
    ensures Less(a, c)
  {
    if |a| > 0 && |b| > 0 && |c| > 0 && a[0] == b[0] && b[0] == c[0] {
      LessTransitive(a[1..], b[1..], c[1..]);
    }
  }

  /** Any two different strings are ordered one way or the other. */
  lemma {:induction false} LessTotal(a: string, b: string)
    ensures a == b || Less(a, b) || Less(b, a)
  {
    if |a| > 0 && |b| > 0 && a[0] == b[0] {
      LessTotal(a[1..], b[1..]);
      if a[1..] == b[1..] {
        assert a == [a[0]] + a[1..] && b == [b[0]] + b[1..];
      }
    }
  }

  predicate Sorted(s: seq<string>)
  {
    forall i, j :: 0 <= i < j < |s| ==> LessEq(s[i], s[j])
  }

  /** x placed before the first element it is less than or equal to. */
  function Insert(x: string, s: seq<string>): (r: seq<string>)
    requires Sorted(s)
    ensures Sorted(r) && multiset(r) == multiset(s) + multiset{x}
  {
    if |s| == 0 then [x]
    else if LessEq(x, s[0]) then
      forall j | 0 < j < |s| ensures LessEq(x, s[j]) {
        if x != s[0] && s[0] != s[j] { LessTransitive(x, s[0], s[j]); }
      }
      [x] + s
    else
      LessTotal(x, s[0]);
      var t := Insert(x, s[1..]);
      assert s == [s[0]] + s[1..];
      assert forall k :: 0 <= k < |t| ==> t[k] in multiset(s[1..]) + multiset{x};
      forall k | 0 <= k < |t| ensures LessEq(s[0], t[k]) {
        assert t[k] in multiset(t);
        if t[k] != x {
          assert t[k] in s[1..];
        }
      }
      [s[0]] + t
  }

  /** sorted(s): the same strings, in ascending order. */
  function SortStrings(s: seq<string>): (r: seq<string>)
    ensures Sorted(r) && multiset(r) == multiset(s)
  {
    if |s| == 0 then []
    else
      assert s == s[..|s| - 1] + [s[|s| - 1]];
      Insert(s[|s| - 1], SortStrings(s[..|s| - 1]))
  }
}
