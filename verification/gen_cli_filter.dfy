/**
 * The generator of the cli_filter option tables: it reads the member
 * declarations of the option structs, normalises each member's type and
 * pointer degree, and for every struct prints one table row per member an
 * interface entry maps, in sorted member order, closed by a terminator row.
 * The text of one struct body stands in for the preprocessed header.
 */
module GenCliFilter {
  import opened PyText

  /** A member's entry in memberdict: its normalised type and pointer degree. */
  datatype MemberType = MemberType(typeName: string, pointer: nat)

  /** memberdict: a Python dict, so keys keep the order they were first stored in. */
  type MemberDict = seq<(string, MemberType)>

  function Keys(d: MemberDict): (ks: seq<string>)
    ensures |ks| == |d| && forall i :: 0 <= i < |d| ==> ks[i] == d[i].0
  {
    if |d| == 0 then [] else [d[0].0] + Keys(d[1..])
  }

  function Get(d: MemberDict, k: string): (r: Option<MemberType>)
    ensures r.Some? <==> k in Keys(d)
  {
    if |d| == 0 then None
    else if d[0].0 == k then Some(d[0].1)
    else Get(d[1..], k)
  }

  /** d[k] = v: an existing key keeps its place, a new one goes last. */
  function Put(d: MemberDict, k: string, v: MemberType): (e: MemberDict)
    ensures Keys(e) == if k in Keys(d) then Keys(d) else Keys(d) + [k]
  {
    if |d| == 0 then [(k, v)]
    else if d[0].0 == k then [(k, v)] + d[1..]
    else [d[0]] + Put(d[1..], k, v)
  }

  /** Reading a key back gives the value last stored under it, and other keys are untouched. */
  lemma {:induction false} GetPut(d: MemberDict, k: string, v: MemberType, j: string)
    ensures Get(Put(d, k, v), j) == if j == k then Some(v) else Get(d, j)
  {
    if |d| > 0 && d[0].0 != k {
      GetPut(d[1..], k, v, j);
    }
  }

  // read_cli_opt_header: the members of one struct.

  /**
   * The text up to the first '}'. Without one, find answers -1 and the
   * slice [:-1] drops the last character instead.
   */
  function BodyOf(text: string): (body: string)
    ensures '}' !in body
    ensures '}' in text ==> |body| < |text| && text[|body|] == '}' && body == text[..|body|]
  {
    match Find(text, '}')
    case Some(i) => text[..i]
    case None => if |text| == 0 then "" else text[..|text| - 1]
  }

  function StripAll(ws: seq<string>): (r: seq<string>)
    ensures |r| == |ws| && forall k :: 0 <= k < |ws| ==> r[k] == Strip(ws[k])
  {
    if |ws| == 0 then [] else [Strip(ws[0])] + StripAll(ws[1..])
  }

  /** [x for x in ws if len(x) > 0] */
  function NonEmpty(ws: seq<string>): (r: seq<string>)
    ensures forall k :: 0 <= k < |r| ==> |r[k]| > 0 && r[k] in ws
    ensures forall w :: w in ws && |w| > 0 ==> w in r
  {
    if |ws| == 0 then []
    else if |ws[0]| > 0 then [ws[0]] + NonEmpty(ws[1..])
    else NonEmpty(ws[1..])
  }

  /** The member declarations of a struct body: split on ';', stripped, the empty ones dropped. */
  function MemberTexts(body: string): seq<string>
  {
    NonEmpty(StripAll(Split(body, ';')))
  }

  /** Stripping only removes characters. */
  lemma StripKeepsOut(p: string, c: char)
    requires c !in p
    ensures c !in Strip(p)
  {
    var r := Strip(p);
    var st := |p| - |LStrip(p)|;
    forall q | 0 <= q < |r|
      ensures r[q] != c
    {
      assert r[q] == p[st + q];
    }
  }

  /** Every declaration kept is non-empty, stripped, and holds no ';'. */
  lemma MemberTextsClean(body: string)
    ensures forall m :: m in MemberTexts(body) ==>
      |m| > 0 && !IsWs(m[0]) && !IsWs(m[|m| - 1]) && ';' !in m
  {
    StrippedPiecesClean(Split(body, ';'));
  }

  lemma StrippedPiecesClean(pieces: seq<string>)
    requires forall k :: 0 <= k < |pieces| ==> ';' !in pieces[k]
    ensures forall m :: m in NonEmpty(StripAll(pieces)) ==>
      |m| > 0 && !IsWs(m[0]) && !IsWs(m[|m| - 1]) && ';' !in m
  {
    var stripped := StripAll(pieces);
    var kept := NonEmpty(stripped);
    forall m | m in kept
      ensures |m| > 0 && !IsWs(m[0]) && !IsWs(m[|m| - 1]) && ';' !in m
    {
      var k :| 0 <= k < |kept| && kept[k] == m;
      assert m in stripped;
      var i :| 0 <= i < |stripped| && stripped[i] == m;
      StripKeepsOut(pieces[i], ';');
    }
  }

  /** The number of '*' a string starts with. */
  function LeadingStars(s: string): (n: nat)
    ensures n <= |s| && (forall k :: 0 <= k < n ==> s[k] == '*') && (n < |s| ==> s[n] != '*')
  {
    if |s| > 0 && s[0] == '*' then 1 + LeadingStars(s[1..]) else 0
  }

  /** The number of '*' a string ends with. */
  function TrailingStars(s: string): (n: nat)
    ensures n <= |s| && (forall k :: |s| - n <= k < |s| ==> s[k] == '*') && (n < |s| ==> s[|s| - n - 1] != '*')
  {
    if |s| > 0 && s[|s| - 1] == '*' then 1 + TrailingStars(s[..|s| - 1]) else 0
  }

  /** The name the last word declares, and the pointer degree its '*'s and a '[' give. */
  function MemberName(word: string): (string, nat)
  {
    var stars := LeadingStars(word);
    var name := word[stars..];
    match Find(name, '[')
    case Some(i) => (name[..i], stars + 1)
    case None => (name, stars)
  }

  /** The type written first, with an enum read as int and a struct tag folded in; None where data[1] is missing. */
  function BaseType(data: seq<string>): Option<string>
    requires |data| > 0
  {
    var t := if data[0] == "enum" then "int" else data[0];
    if t != "struct" then Some(t)
    else if |data| < 2 then None
    else Some("struct_" + data[1])
  }

  /** A type with its trailing '*'s moved into the pointer degree. */
  function TypeOf(t: string, degree: nat): MemberType
  {
    var n := TrailingStars(t);
    MemberType(t[..|t| - n], degree + n)
  }

  /**
   * One member declaration. None is the IndexError of a declaration with no
   * words, or of "struct" with no tag after it.
   */
  function ParseMember(decl: string): Option<(string, MemberType)>
  {
    var data := Tokens(decl);
    if |data| == 0 then None
    else
      var nameDegree := MemberName(data[|data| - 1]);
      match BaseType(data)
      case None => None
      case Some(t) => Some((nameDegree.0, TypeOf(t, nameDegree.1)))
  }

  function Stars(k: nat): (s: string)
    ensures |s| == k && forall i :: 0 <= i < k ==> s[i] == '*'
  {
    if k == 0 then "" else "*" + Stars(k - 1)
  }

  /** A word a declaration can end with: the stars are found and the rest is the name. */
  lemma LeadingStarsOf(k: nat, n: string)
    requires |n| > 0 && n[0] != '*'
    ensures LeadingStars(Stars(k) + n) == k && (Stars(k) + n)[k..] == n
  {
    var w := Stars(k) + n;
    assert w[k] == n[0];
    assert w[k..] == n;
  }

  lemma TrailingStarsOf(t: string, j: nat)
    requires |t| > 0 && t[|t| - 1] != '*'
    ensures TrailingStars(t + Stars(j)) == j && (t + Stars(j))[..|t|] == t
  {
    var w := t + Stars(j);
    assert w[|t| - 1] == t[|t| - 1];
    assert w[..|t|] == t;
  }

  /** A word with no whitespace, as a type or a name in a declaration. */
  predicate Word(w: string)
  {
    |w| > 0 && NoWs(w)
  }

  /** A word then a blank: the word is the first token. */
  lemma WordBlank(w: string, rest: string)
    requires Word(w)
    ensures Tokens(w + " " + rest) == [w] + Tokens(rest)
  {
    assert w + " " + rest == w + (" " + rest);
    WordThen(w, " " + rest);
    BlankThen(" ", rest);
  }

  lemma OneToken(w: string)
    requires Word(w)
    ensures Tokens(w) == [w]
  {
    assert w + "" == w;
    WordThen(w, "");
  }

  /** The name half of a declaration "... *name". */
  lemma NameOf(k: nat, n: string)
    requires |n| > 0 && n[0] != '*' && '[' !in n
    ensures MemberName(Stars(k) + n) == (n, k)
  {
    LeadingStarsOf(k, n);
  }

  /** ParseMember once the words of the declaration are known. */
  lemma ParseTokens(decl: string, data: seq<string>, t: string)
    requires Tokens(decl) == data && |data| > 0 && BaseType(data) == Some(t)
    ensures ParseMember(decl) == Some((MemberName(data[|data| - 1]).0, TypeOf(t, MemberName(data[|data| - 1]).1)))
  {
  }

  lemma DeclTokens(ty: string, w: string)
    requires Word(ty) && Word(w)
    ensures Tokens(ty + " " + w) == [ty, w]
  {
    WordBlank(ty, w);
    OneToken(w);
  }

  /** The words of a declaration "kw tag name". */
  lemma KeywordDeclTokens(kw: string, tag: string, w: string)
    requires Word(kw) && Word(tag) && Word(w)
    ensures Tokens(kw + " " + tag + " " + w) == [kw, tag, w]
  {
    assert kw + " " + tag + " " + w == kw + " " + (tag + " " + w);
    WordBlank(kw, tag + " " + w);
    DeclTokens(tag, w);
  }

  /**
   * "T** *name": the type's trailing '*'s and the name's leading '*'s all
   * count towards the pointer degree, and the name keeps the rest.
   */
  lemma {:induction false} PlainDecl(t: string, j: nat, k: nat, n: string)
    requires Word(t) && t[|t| - 1] != '*' && t + Stars(j) != "enum" && t + Stars(j) != "struct"
    requires Word(n) && n[0] != '*' && '[' !in n
    ensures ParseMember(t + Stars(j) + " " + Stars(k) + n) == Some((n, MemberType(t, j + k)))
  {
    var ty := t + Stars(j);
    var w := Stars(k) + n;
    var decl := t + Stars(j) + " " + Stars(k) + n;
    assert Tokens(decl) == [ty, w] by {
      assert decl == ty + " " + w;
      DeclTokens(ty, w);
    }
    assert MemberName(w) == (n, k) by { NameOf(k, n); }
    assert TypeOf(ty, k) == MemberType(t, j + k) by { TrailingStarsOf(t, j); }
    ParseTokens(decl, [ty, w], ty);
  }

  lemma NameWithBound(n: string, bound: string)
    requires |n| > 0 && n[0] != '*' && '[' !in n
    ensures MemberName(n + "[" + bound + "]") == (n, 1)
  {
    var w := n + "[" + bound + "]";
    assert LeadingStars(w) == 0 && w[0..] == w;
    assert w[|n|] == '[';
    assert forall q :: 0 <= q < |n| ==> w[q] == n[q];
    assert forall e :: |n| < e <= |w| ==> w[..e][|n|] == '[';
    assert w[..|n|] == n;
  }

  /** "T name[N]": an array member is one pointer degree, named without its bound. */
  lemma {:induction false} ArrayDecl(t: string, n: string, bound: string)
    requires Word(t) && t[|t| - 1] != '*' && t != "enum" && t != "struct"
    requires Word(n) && n[0] != '*' && '[' !in n && NoWs(bound)
    ensures ParseMember(t + " " + n + "[" + bound + "]") == Some((n, MemberType(t, 1)))
  {
    var w := n + "[" + bound + "]";
    var decl := t + " " + n + "[" + bound + "]";
    assert Tokens(decl) == [t, w] by {
      assert decl == t + " " + w;
      DeclTokens(t, w);
    }
    assert MemberName(w) == (n, 1) by { NameWithBound(n, bound); }
    assert TypeOf(t, 1) == MemberType(t, 1) by {
      TrailingStarsOf(t, 0);
      assert t + Stars(0) == t;
    }
    ParseTokens(decl, [t, w], t);
  }

  /** "enum E name": an enum member is stored as an int. */
  lemma {:induction false} EnumDecl(tag: string, n: string)
    requires Word(tag) && Word(n) && n[0] != '*' && '[' !in n
    ensures ParseMember("enum " + tag + " " + n) == Some((n, MemberType("int", 0)))
  {
    var decl := "enum " + tag + " " + n;
    assert decl == "enum" + " " + tag + " " + n;
    KeywordDeclTokens("enum", tag, n);
    assert MemberName(n) == (n, 0) by {
      NameOf(0, n);
      assert Stars(0) + n == n;
    }
    assert TypeOf("int", 0) == MemberType("int", 0) by {
      TrailingStarsOf("int", 0);
      assert "int" + Stars(0) == "int";
    }
    ParseTokens(decl, ["enum", tag, n], "int");
  }

  /** "struct S *name": the struct tag is folded into the type name. */
  lemma {:induction false} StructDecl(tag: string, k: nat, n: string)
    requires Word(tag) && tag[|tag| - 1] != '*' && Word(n) && n[0] != '*' && '[' !in n
    ensures ParseMember("struct " + tag + " " + Stars(k) + n) == Some((n, MemberType("struct_" + tag, k)))
  {
    var w := Stars(k) + n;
    var decl := "struct " + tag + " " + Stars(k) + n;
    assert decl == "struct" + " " + tag + " " + w;
    KeywordDeclTokens("struct", tag, w);
    assert MemberName(w) == (n, k) by { NameOf(k, n); }
    assert TypeOf("struct_" + tag, k) == MemberType("struct_" + tag, k) by {
      TrailingStarsOf("struct_" + tag, 0);
      assert "struct_" + tag + Stars(0) == "struct_" + tag;
    }
    ParseTokens(decl, ["struct", tag, w], "struct_" + tag);
  }

  /** A lone "struct" is the IndexError of data[1]. */
  lemma StructWithoutTag()
    ensures ParseMember("struct").None?
  {
    OneToken("struct");
  }

  /** memberdict after storing each declaration in turn; None when one of them raised. */
  function BuildDict(ms: seq<string>): Option<MemberDict>
  {
    if |ms| == 0 then Some([])
    else
      match BuildDict(ms[..|ms| - 1])
      case None => None
      case Some(d) =>
        match ParseMember(ms[|ms| - 1])
        case None => None
        case Some(p) => Some(Put(d, p.0, p.1))
  }

  lemma BuildDictStep(ms: seq<string>, i: nat)
    requires i < |ms| && BuildDict(ms[..i]).Some?
    ensures ParseMember(ms[i]).None? ==> BuildDict(ms[..i + 1]) == None
    ensures ParseMember(ms[i]).Some? ==>
      BuildDict(ms[..i + 1]) == Some(Put(BuildDict(ms[..i]).value, ParseMember(ms[i]).value.0, ParseMember(ms[i]).value.1))
  {
    assert ms[..i + 1][..i] == ms[..i];
  }

  /** One declaration more: it either raises for the whole list or is put in the dictionary. */
  lemma StoreStep(ms: seq<string>, i: nat, d: MemberDict, m: Option<(string, MemberType)>)
    requires i < |ms| && BuildDict(ms[..i]) == Some(d) && m == ParseMember(ms[i])
    ensures m.None? ==> BuildDict(ms) == None
    ensures m.Some? ==> BuildDict(ms[..i + 1]) == Some(Put(d, m.value.0, m.value.1))
  {
    BuildDictStep(ms, i);
    if m.None? {
      BuildDictFails(ms, i + 1);
    }
  }

  /** Once a declaration raises, so does every longer list that starts with it. */
  lemma {:induction false} BuildDictFails(ms: seq<string>, n: nat)
    requires n <= |ms| && BuildDict(ms[..n]) == None
    ensures BuildDict(ms) == None
    decreases |ms| - n
  {
    if n < |ms| {
      assert ms[..n + 1][..n] == ms[..n];
      BuildDictFails(ms, n + 1);
    } else {
      assert ms[..n] == ms;
    }
  }

  /** The while loop that peels '*'s off the front of the name, counting them. */
  method PeelLeadingStars(word: string) returns (name: string, degree: nat)
    ensures degree == LeadingStars(word) && name == word[degree..]
  {
    name := word;
    degree := 0;
    while |name| > 0 && name[0] == '*'
      invariant degree <= |word| && name == word[degree..]
      invariant forall k :: 0 <= k < degree ==> word[k] == '*'
      decreases |name|
    {
      name := name[1..];
      degree := degree + 1;
    }
  }

  /** The while loop that peels '*'s off the end of the type, counting them. */
  method PeelTrailingStars(t: string, degree: nat) returns (typeName: string, newDegree: nat)
    ensures newDegree == degree + TrailingStars(t) && typeName == t[..|t| - TrailingStars(t)]
  {
    typeName := t;
    newDegree := degree;
    while |typeName| > 0 && typeName[|typeName| - 1] == '*'
      invariant degree <= newDegree <= degree + |t| && typeName == t[..|t| - (newDegree - degree)]
      invariant forall k :: |t| - (newDegree - degree) <= k < |t| ==> t[k] == '*'
      decreases |typeName|
    {
      typeName := typeName[..|typeName| - 1];
      newDegree := newDegree + 1;
    }
  }

  /** The name half of the loop body: leading '*'s peeled, then a '[' found. */
  method DeclaredName(word: string) returns (name: string, degree: nat)
    ensures (name, degree) == MemberName(word)
  {
    name, degree := PeelLeadingStars(word);
    var idx := Find(name, '[');
    if idx.Some? {
      degree := degree + 1;
      name := name[..idx.value];
    }
  }

  /** The body of the loop over members: one declaration's name and entry. */
  method ParseMemberDecl(decl: string) returns (r: Option<(string, MemberType)>)
    ensures r == ParseMember(decl)
  {
    var data := Tokens(decl);
    if |data| == 0 {
      return None;
    }
    var name, degree := DeclaredName(data[|data| - 1]);
    var typeName := data[0];
    if typeName == "enum" {
      typeName := "int";
    }
    if typeName == "struct" {
      if |data| < 2 {
        return None;
      }
      typeName := "struct_" + data[1];
    }
    assert BaseType(data) == Some(typeName);
    var base := typeName;
    typeName, degree := PeelTrailingStars(base, degree);
    assert MemberType(typeName, degree) == TypeOf(base, MemberName(data[|data| - 1]).1);
    r := Some((name, MemberType(typeName, degree)));
  }

  /** The loop that strips each entry of the members list in place. */
  method StripMembers(pieces: seq<string>) returns (members: seq<string>)
    ensures members == StripAll(pieces)
  {
    members := pieces;
    var idx := 0;
    while idx < |members|
      invariant 0 <= idx <= |members| == |pieces|
      invariant forall k :: 0 <= k < idx ==> members[k] == Strip(pieces[k])
      invariant forall k :: idx <= k < |members| ==> members[k] == pieces[k]
    {
      members := members[idx := Strip(members[idx])];
      idx := idx + 1;
    }
    var all := StripAll(pieces);
    assert |all| == |members| && forall k :: 0 <= k < |members| ==> members[k] == all[k];
  }

  /**
   * cprog[member_start:], given the text after the matched '{': the start is
   * one past the match's end, so the character right after '{' is skipped.
   * It is the blank that joined the header's line to the next one when '{'
   * ends its line, and the first character of the first member otherwise.
   */
  function MemberString(afterBrace: string): (m: string)
    ensures |afterBrace| > 0 ==> afterBrace == [afterBrace[0]] + m
    ensures |afterBrace| == 0 ==> m == ""
  {
    if |afterBrace| == 0 then "" else afterBrace[1..]
  }

  /**
   * Whatever character c follows '{' is dropped before the members are
   * read. With the usual blank that is harmless; in "{int a; }" it is the
   * 'i', and the member is read as "nt a".
   */
  lemma {:induction false} SkippedCharacter(c: char, t: string, n: char)
    requires |t| > 0 && !IsWs(t[0]) && ';' !in t && '}' !in t
    requires !IsWs(n) && n != ';' && n != '}'
    ensures MemberTexts(BodyOf(MemberString([c] + t + [' ', n] + "; }"))) == [t + [' ', n]]
  {
    assert MemberString([c] + t + [' ', n] + "; }") == t + [' ', n] + "; }";
    OneMember(t, n);
  }

  /** find gives the index of a character that occurs only at the end. */
  lemma {:induction false} FindAtEnd(s: string, c: char)
    requires c !in s
    ensures Find(s + [c], c) == Some(|s|)
  {
    if |s| > 0 {
      assert (s + [c])[1..] == s[1..] + [c];
      FindAtEnd(s[1..], c);
    }
  }

  /** Splitting at the first separator: the text before it, then the rest's pieces. */
  lemma {:induction false} SplitAtFirst(m: string, sep: char, rest: string)
    requires sep !in m && sep !in rest
    ensures Split(m + [sep] + rest, sep) == [m, rest]
  {
    if |m| == 0 {
      assert (m + [sep] + rest)[1..] == rest;
      SplitNoSeparator(rest, sep);
    } else {
      assert (m + [sep] + rest)[1..] == m[1..] + [sep] + rest;
      SplitAtFirst(m[1..], sep, rest);
      assert [m[0]] + m[1..] == m;
    }
  }

  /** A text without the separator is one piece. */
  lemma {:induction false} SplitNoSeparator(s: string, sep: char)
    requires sep !in s
    ensures Split(s, sep) == [s]
  {
    if |s| > 0 {
      SplitNoSeparator(s[1..], sep);
      assert [s[0]] + s[1..] == s;
    }
  }

  /** The body of "t n; }" holds the one member "t n". */
  lemma {:induction false} OneMember(t: string, n: char)
    requires |t| > 0 && !IsWs(t[0]) && ';' !in t && '}' !in t && !IsWs(n) && n != ';' && n != '}'
    ensures MemberTexts(BodyOf(t + [' ', n] + "; }")) == [t + [' ', n]]
  {
    var m := t + [' ', n];
    assert t + [' ', n] + "; }" == (m + "; ") + ['}'];
    assert '}' !in m + "; " by {
      assert m + "; " == t + [' ', n, ';', ' '];
    }
    BodyBeforeBrace(m + "; ");
    assert ';' !in m by {
      assert m == t + [' ', n];
    }
    OneMemberText(m);
  }

  lemma BodyBeforeBrace(body: string)
    requires '}' !in body
    ensures BodyOf(body + ['}']) == body
  {
    FindAtEnd(body, '}');
  }

  /** "m; " holds the one member m when m is already stripped. */
  lemma OneMemberText(m: string)
    requires |m| > 0 && !IsWs(m[0]) && !IsWs(m[|m| - 1]) && ';' !in m
    ensures MemberTexts(m + "; ") == [m]
  {
    assert m + "; " == m + [';'] + " ";
    SplitAtFirst(m, ';', " ");
    var ws := [m, " "];
    assert StripAll(ws) == [Strip(m)] + StripAll(ws[1..]);
    assert ws[1..] == [" "];
    StripClean(m);
    StripBlank();
    assert StripAll([m, " "]) == [m, ""];
    assert NonEmpty([m, ""]) == [m] + NonEmpty([""]);
  }

  lemma StripBlank()
    ensures Strip(" ") == ""
  {
    assert LStrip(" ") == LStrip(" "[1..]);
  }



  /**
   * The members of a struct, from the text after its '{': the body is cut
   * one character late, its list is stripped in place, filtered, and each
   * entry stored.
   */
  method ReadMembers(afterBrace: string) returns (d: Option<MemberDict>)
    ensures d == BuildDict(MemberTexts(BodyOf(MemberString(afterBrace))))
    ensures |afterBrace| > 0 ==> d == BuildDict(MemberTexts(BodyOf(afterBrace[1..])))
  {
    var memberString := if |afterBrace| == 0 then "" else afterBrace[1..];
    var members := StripMembers(Split(BodyOf(memberString), ';'));
    members := NonEmpty(members);
    d := StoreMembers(members);
  }

  /** The loop storing each declaration in memberdict; an IndexError ends it with None. */
  method StoreMembers(members: seq<string>) returns (d: Option<MemberDict>)
    ensures d == BuildDict(members)
  {
    d := Some([]);
    var i := 0;
    while i < |members|
      invariant 0 <= i <= |members|
      invariant d.Some? && d == BuildDict(members[..i])
    {
      var m := ParseMemberDecl(members[i]);
      StoreStep(members, i, d.value, m);
      if m.None? {
        return None;
      }
      d := Some(Put(d.value, m.value.0, m.value.1));
      i := i + 1;
    }
    assert members[..|members|] == members;
  }

  // gen_interface: the table rows.

  /** An interface entry; a key the Python dict lacks is None. */
  datatype Iface = Iface(typeName: Option<string>, pointer: Option<nat>, name: Option<string>,
                         read: string, write: string, countField: Option<string>)

  /** An entry fits a member by type and pointer degree, or by name. */
  predicate Matches(it: Iface, member: string, mt: MemberType)
  {
    (it.typeName.Some? && it.pointer.Some? && mt.typeName == it.typeName.value && mt.pointer == it.pointer.value) ||
    (it.name.Some? && member == it.name.value)
  }

  /** The index of the entry gen_interface settles on: the last that fits, as the loop never breaks. */
  function LastMatch(ifaces: seq<Iface>, member: string, mt: MemberType): (r: Option<nat>)
    ensures r.Some? ==> r.value < |ifaces| && Matches(ifaces[r.value], member, mt)
    ensures r.Some? ==> forall j :: r.value < j < |ifaces| ==> !Matches(ifaces[j], member, mt)
    ensures r.None? ==> forall j :: 0 <= j < |ifaces| ==> !Matches(ifaces[j], member, mt)
  {
    if |ifaces| == 0 then None
    else if Matches(ifaces[|ifaces| - 1], member, mt) then Some(|ifaces| - 1)
    else LastMatch(ifaces[..|ifaces| - 1], member, mt)
  }

  /** The inner loop over iface_types. */
  method FindInterface(ifaces: seq<Iface>, member: string, mt: MemberType) returns (found: Option<Iface>)
    ensures found.Some? <==> LastMatch(ifaces, member, mt).Some?
    ensures found.Some? ==> found.value == ifaces[LastMatch(ifaces, member, mt).value]
  {
    found := None;
    var k := 0;
    while k < |ifaces|
      invariant 0 <= k <= |ifaces|
      invariant found.Some? <==> LastMatch(ifaces[..k], member, mt).Some?
      invariant found.Some? ==> found.value == ifaces[LastMatch(ifaces[..k], member, mt).value]
    {
      assert ifaces[..k + 1][..k] == ifaces[..k];
      if Matches(ifaces[k], member, mt) {
        found := Some(ifaces[k]);
      }
      k := k + 1;
    }
    assert ifaces[..|ifaces|] == ifaces;
  }

  /** The count field of a row: its name in quotes, or NULL. */
  function CountText(c: Option<string>): (r: string)
    ensures c.None? ==> r == "NULL"
    ensures c.Some? ==> |r| == |c.value| + 2 && r[0] == '"' && r[|r| - 1] == '"' && r[1..|r| - 1] == c.value
  {
    match c
    case None => "NULL"
    case Some(f) => "\"" + f + "\""
  }

  /** One table row: member name, offsetof, the read and write functions, the count field. */
  function Row(member: string, structName: string, it: Iface): string
  {
    "\t{ \"" + member + "\", offsetof(struct " + structName + ", " + member + "), " +
    it.read + ", " + it.write + ", " + CountText(it.countField) + " }"
  }

  /** The interface entry a member of d settles on, if any. */
  function Chosen(d: MemberDict, ifaces: seq<Iface>, m: string): Option<nat>
    requires m in Keys(d)
  {
    LastMatch(ifaces, m, Get(d, m).value)
  }

  function Names(mapped: seq<(string, Iface)>): (ns: seq<string>)
    ensures |ns| == |mapped| && forall k :: 0 <= k < |mapped| ==> ns[k] == mapped[k].0
  {
    if |mapped| == 0 then [] else [mapped[0].0] + Names(mapped[1..])
  }

  /**
   * The members, in the given order, that some entry maps, each with the
   * entry it settles on; a member nothing maps is skipped.
   */
  function Mapped(d: MemberDict, ifaces: seq<Iface>, members: seq<string>): (r: seq<(string, Iface)>)
    requires forall m :: m in members ==> m in Keys(d)
    ensures forall k :: 0 <= k < |r| ==>
      r[k].0 in members && Chosen(d, ifaces, r[k].0).Some? && r[k].1 == ifaces[Chosen(d, ifaces, r[k].0).value]
    ensures forall m :: m in members && Chosen(d, ifaces, m).Some? ==> m in Names(r)
  {
    if |members| == 0 then []
    else
      var m := members[|members| - 1];
      var rest := Mapped(d, ifaces, members[..|members| - 1]);
      var at := Chosen(d, ifaces, m);
      InitOrLast(members);
      if at.Some? then
        var r := rest + [(m, ifaces[at.value])];
        assert Names(r) == Names(rest) + [m];
        r
      else rest
  }

  /** An element of a non-empty list is in its initial part or is its last element. */
  lemma InitOrLast(xs: seq<string>)
    requires |xs| > 0
    ensures forall x :: x in xs <==> x in xs[..|xs| - 1] || x == xs[|xs| - 1]
  {
    assert xs == xs[..|xs| - 1] + [xs[|xs| - 1]];
  }

  /** Mapped over one more member: that member's row, if any, goes last. */
  lemma MappedStep(d: MemberDict, ifaces: seq<Iface>, members: seq<string>, i: nat)
    requires i < |members| && forall m :: m in members ==> m in Keys(d)
    ensures var at := Chosen(d, ifaces, members[i]);
      Mapped(d, ifaces, members[..i + 1]) ==
      Mapped(d, ifaces, members[..i]) + (if at.Some? then [(members[i], ifaces[at.value])] else [])
  {
    assert members[..i + 1][..i] == members[..i];
  }

  function Rows(structName: string, mapped: seq<(string, Iface)>): (r: seq<string>)
    ensures |r| == |mapped|
  {
    if |mapped| == 0 then []
    else Rows(structName, mapped[..|mapped| - 1]) + [Row(mapped[|mapped| - 1].0, structName, mapped[|mapped| - 1].1)]
  }

  lemma RowsSnoc(structName: string, mapped: seq<(string, Iface)>, p: (string, Iface))
    ensures Rows(structName, mapped + [p]) == Rows(structName, mapped) + [Row(p.0, structName, p.1)]
  {
    assert (mapped + [p])[..|mapped|] == mapped;
  }

  /** The widest a printed row may be before it is broken at a blank. */
  const WIDTH: nat := 71

  /** Where the while loop leaves endidx: it steps back from blank to blank until it is within WIDTH. */
  function BreakAt(item: string, endidx: int): (e: int)
    requires -1 <= endidx <= |item|
    ensures -1 <= e <= endidx && e <= WIDTH
    ensures e < endidx ==> e == -1 || item[e] == ' '
    ensures forall k :: e < k < endidx && k <= WIDTH ==> item[k] != ' '
    decreases endidx + 1
  {
    if endidx > WIDTH then BreakAt(item, RFind(item[..endidx], ' ')) else endidx
  }

  /** item[:e] and item[e:] as Python reads them, where -1 stands for the last character. */
  function Before(item: string, e: int): string
    requires -1 <= e < |item| && |item| > 0
  {
    if e >= 0 then item[..e] else item[..|item| - 1]
  }

  function After(item: string, e: int): string
    requires -1 <= e < |item| && |item| > 0
  {
    if e >= 0 then item[e..] else item[|item| - 1..]
  }

  /** The lines one mapped row is printed as: itself with a comma, or broken in two at a blank. */
  function RowLines(item: string): (ls: seq<string>)
  {
    var e := BreakAt(item, |item|);
    (if e == |item| then [item + ","] else []) +
    (if |item| > WIDTH then [Before(item, e), "\t\t" + After(item, e) + ","] else [])
  }

  function AllRowLines(rows: seq<string>): seq<string>
  {
    if |rows| == 0 then [] else AllRowLines(rows[..|rows| - 1]) + RowLines(rows[|rows| - 1])
  }

  const TERMINATOR: string := "\t{ NULL, 0, NULL, NULL, NULL }"

  function Header(typeName: string, structName: string, suffix: string): string
  {
    typeName + " " + structName + "_" + suffix + "[] = {"
  }

  /** The struct's member names in sorted() order. */
  function SortedMembers(d: MemberDict): (ms: seq<string>)
    ensures forall m :: m in ms <==> m in Keys(d)
  {
    var ms := SortStrings(Keys(d));
    assert forall m :: m in ms <==> m in multiset(Keys(d));
    ms
  }

  /** The lines printed for one struct: nothing when no member is mapped. */
  function StructLines(typeName: string, suffix: string, structName: string, d: MemberDict,
                       ifaces: seq<Iface>): seq<string>
  {
    var rows := Rows(structName, Mapped(d, ifaces, SortedMembers(d)));
    if |rows| == 0 then []
    else [Header(typeName, structName, suffix)] + AllRowLines(rows) + [TERMINATOR, "};"]
  }

  /** A names list drawn from a sorted member list, in its order, is sorted too. */
  lemma SortedInit(s: seq<string>)
    requires |s| > 0 && Sorted(s)
    ensures Sorted(s[..|s| - 1])
  {
    var init := s[..|s| - 1];
    forall a, b | 0 <= a < b < |init| ensures LessEq(init[a], init[b]) {
      assert init[a] == s[a] && init[b] == s[b];
    }
  }

  lemma SortedSnoc(front: seq<string>, last: string)
    requires Sorted(front) && forall i :: 0 <= i < |front| ==> LessEq(front[i], last)
    ensures Sorted(front + [last])
  {
    var ns := front + [last];
    forall a, b | 0 <= a < b < |ns| ensures LessEq(ns[a], ns[b]) {
      assert ns[a] == front[a];
      if b < |front| {
        assert ns[b] == front[b];
      }
    }
  }

  lemma NamesSnoc(ps: seq<(string, Iface)>, p: (string, Iface))
    ensures Names(ps + [p]) == Names(ps) + [p.0]
  {
  }

  /** Every member mapped before the last one of a sorted list is at most that one. */
  lemma MappedBelowLast(d: MemberDict, ifaces: seq<Iface>, members: seq<string>)
    requires |members| > 0 && Sorted(members) && forall m :: m in members ==> m in Keys(d)
    ensures var front := Names(Mapped(d, ifaces, members[..|members| - 1]));
      forall a :: 0 <= a < |front| ==> LessEq(front[a], members[|members| - 1])
  {
    var init := members[..|members| - 1];
    assert forall x :: x in init ==> x in members;
    var front := Names(Mapped(d, ifaces, init));
    forall a | 0 <= a < |front| ensures LessEq(front[a], members[|members| - 1]) {
      var x := front[a];
      assert x in init;
      var j :| 0 <= j < |init| && init[j] == x;
      assert members[j] == x;
    }
  }

  lemma {:induction false} MappedSorted(d: MemberDict, ifaces: seq<Iface>, members: seq<string>)
    requires forall m :: m in members ==> m in Keys(d)
    requires Sorted(members)
    ensures Sorted(Names(Mapped(d, ifaces, members)))
  {
    if |members| > 0 {
      var init := members[..|members| - 1];
      var last := members[|members| - 1];
      SortedInit(members);
      assert forall x :: x in init ==> x in members;
      MappedSorted(d, ifaces, init);
      var rest := Mapped(d, ifaces, init);
      if Chosen(d, ifaces, last).Some? {
        NamesSnoc(rest, (last, ifaces[Chosen(d, ifaces, last).value]));
        MappedBelowLast(d, ifaces, members);
        SortedSnoc(Names(rest), last);
      }
    }
  }

  /** The rows come out in sorted() order of member names. */
  lemma RowsInSortedOrder(d: MemberDict, ifaces: seq<Iface>)
    ensures Sorted(Names(Mapped(d, ifaces, SortedMembers(d))))
  {
    MappedSorted(d, ifaces, SortedMembers(d));
  }

  /** A struct gets a table exactly when at least one of its members is mapped. */
  lemma NoTableWithoutRows(typeName: string, suffix: string, structName: string, d: MemberDict, ifaces: seq<Iface>)
    ensures StructLines(typeName, suffix, structName, d, ifaces) == [] <==>
      forall m :: m in Keys(d) ==> Chosen(d, ifaces, m).None?
  {
    var mapped := Mapped(d, ifaces, SortedMembers(d));
    if |mapped| > 0 {
      assert mapped[0].0 in Keys(d);
    } else {
      assert Names(mapped) == [];
      forall m | m in Keys(d) ensures Chosen(d, ifaces, m).None? {
        assert m in SortedMembers(d);
      }
    }
  }

  /** Every table opens with its declaration and closes with the terminator row and the brace. */
  lemma TableShape(typeName: string, suffix: string, structName: string, d: MemberDict, ifaces: seq<Iface>)
    requires StructLines(typeName, suffix, structName, d, ifaces) != []
    ensures var ls := StructLines(typeName, suffix, structName, d, ifaces);
      |ls| >= 4 && ls[0] == Header(typeName, structName, suffix) &&
      ls[|ls| - 2] == TERMINATOR && ls[|ls| - 1] == "};"
  {
    var rows := Rows(structName, Mapped(d, ifaces, SortedMembers(d)));
    AllRowLinesLength(rows);
  }

  lemma {:induction false} AllRowLinesLength(rows: seq<string>)
    ensures |AllRowLines(rows)| >= |rows|
  {
    if |rows| > 0 {
      AllRowLinesLength(rows[..|rows| - 1]);
      RowLinesShape(rows[|rows| - 1]);
    }
  }

  /**
   * A row within WIDTH is printed whole with its comma; a longer one is
   * printed as two lines that put the row back together, the second
   * indented by two tabs and ending in the comma.
   */
  lemma RowLinesShape(item: string)
    ensures |item| <= WIDTH ==> RowLines(item) == [item + ","]
    ensures |item| > WIDTH ==> var ls := RowLines(item);
      |ls| == 2 && |ls[1]| >= 3 && ls[1][..2] == "\t\t" && ls[1][|ls[1]| - 1] == ',' &&
      ls[0] + ls[1][2..|ls[1]| - 1] == item
  {
    if |item| > WIDTH {
      var e := BreakAt(item, |item|);
      var a := After(item, e);
      var l1 := "\t\t" + a + ",";
      assert RowLines(item) == [Before(item, e), l1];
      assert l1[2..|l1| - 1] == a;
      BeforeAfter(item, e);
    }
  }

  lemma BeforeAfter(item: string, e: int)
    requires -1 <= e < |item| && |item| > 0
    ensures Before(item, e) + After(item, e) == item && |After(item, e)| > 0
  {
    if e >= 0 {
      assert item[..e] + item[e..] == item;
    } else {
      assert item[..|item| - 1] + item[|item| - 1..] == item;
    }
  }

  /** A long row is broken at its last blank within WIDTH, so its first line fits. */
  lemma RowBreaksAtLastBlank(item: string, b: nat)
    requires |item| > WIDTH && b <= WIDTH && item[b] == ' '
    ensures var e := BreakAt(item, |item|);
      0 <= e && b <= e && item[e] == ' ' && |RowLines(item)[0]| <= WIDTH
  {
  }

  /** A generated row has a blank after its opening brace, so every printed line of it but the continuation fits. */
  lemma RowFits(member: string, structName: string, it: Iface)
    ensures var item := Row(member, structName, it);
      |item| > WIDTH ==> |RowLines(item)[0]| <= WIDTH
  {
    var item := Row(member, structName, it);
    assert item[2] == ' ';
    if |item| > WIDTH {
      RowBreaksAtLastBlank(item, 2);
    }
  }

  function IncludeLine(f: string): string
  {
    "#include \"" + f + "\""
  }

  function IncludeLines(includes: seq<string>): (ls: seq<string>)
    ensures |ls| == |includes| && forall k :: 0 <= k < |includes| ==> ls[k] == IncludeLine(includes[k])
  {
    if |includes| == 0 then [] else IncludeLines(includes[..|includes| - 1]) + [IncludeLine(includes[|includes| - 1])]
  }

  function TableLines(structs: seq<(string, MemberDict)>, ifaces: seq<Iface>, typeName: string,
                      suffix: string): seq<string>
  {
    if |structs| == 0 then []
    else
      var last := structs[|structs| - 1];
      TableLines(structs[..|structs| - 1], ifaces, typeName, suffix) +
      StructLines(typeName, suffix, last.0, last.1, ifaces)
  }

  /**
   * gen_interface, with what it prints as the returned lines. structs is
   * the dict of struct names to memberdicts, in its order.
   */
  method GenInterface(structs: seq<(string, MemberDict)>, ifaces: seq<Iface>, typeName: string,
                      suffix: string, includes: seq<string>) returns (out: seq<string>)
    ensures out == IncludeLines(includes) + TableLines(structs, ifaces, typeName, suffix)
  {
    var head := PrintIncludes(includes);
    var tables := PrintTables(structs, ifaces, typeName, suffix);
    out := head + tables;
  }

  /** The loop printing one #include line per header named. */
  method PrintIncludes(includes: seq<string>) returns (out: seq<string>)
    ensures out == IncludeLines(includes)
  {
    out := [];
    for f := 0 to |includes|
      invariant out == IncludeLines(includes[..f])
    {
      assert includes[..f + 1][..f] == includes[..f];
      out := out + [IncludeLine(includes[f])];
    }
    assert includes[..|includes|] == includes;
  }

  /** The loop over the structs, printing each one's table. */
  method PrintTables(structs: seq<(string, MemberDict)>, ifaces: seq<Iface>, typeName: string,
                     suffix: string) returns (out: seq<string>)
    ensures out == TableLines(structs, ifaces, typeName, suffix)
  {
    out := [];
    var s := 0;
    while s < |structs|
      invariant 0 <= s <= |structs|
      invariant out == TableLines(structs[..s], ifaces, typeName, suffix)
    {
      assert structs[..s + 1][..s] == structs[..s];
      var lines := StructTable(typeName, suffix, structs[s].0, structs[s].1, ifaces);
      out := out + lines;
      s := s + 1;
    }
    assert structs[..|structs|] == structs;
  }

  /** The loop over the sorted members that collects the mapped rows. */
  method MappedRows(structName: string, d: MemberDict, ifaces: seq<Iface>) returns (mapped: seq<string>)
    ensures mapped == Rows(structName, Mapped(d, ifaces, SortedMembers(d)))
  {
    var members := SortedMembers(d);
    mapped := [];
    var i := 0;
    while i < |members|
      invariant 0 <= i <= |members|
      invariant mapped == Rows(structName, Mapped(d, ifaces, members[..i]))
    {
      var member := members[i];
      ghost var before := Mapped(d, ifaces, members[..i]);
      var ifaceData := FindInterface(ifaces, member, Get(d, member).value);
      if ifaceData.Some? {
        assert Mapped(d, ifaces, members[..i + 1]) == before + [(member, ifaceData.value)] by {
          MappedStep(d, ifaces, members, i);
        }
        RowsSnoc(structName, before, (member, ifaceData.value));
        mapped := mapped + [Row(member, structName, ifaceData.value)];
      } else {
        assert Mapped(d, ifaces, members[..i + 1]) == before by {
          MappedStep(d, ifaces, members, i);
        }
      }
      i := i + 1;
    }
    assert members[..|members|] == members;
  }

  /** The printing of one mapped row, with the loop that looks for a blank to break it at. */
  method PrintRow(item: string) returns (ls: seq<string>)
    ensures ls == RowLines(item)
  {
    var endidx: int := |item|;
    while endidx > WIDTH
      invariant -1 <= endidx <= |item| && BreakAt(item, endidx) == BreakAt(item, |item|)
      decreases endidx + 1
    {
      endidx := RFind(item[..endidx], ' ');
    }
    ls := [];
    if endidx == |item| {
      ls := ls + [item + ","];
    }
    if |item| > WIDTH {
      ls := ls + [Before(item, endidx), "\t\t" + After(item, endidx) + ","];
    }
  }

  /** The loop printing each mapped row with its comma. */
  method PrintRows(mapped: seq<string>) returns (lines: seq<string>)
    ensures lines == AllRowLines(mapped)
  {
    lines := [];
    for idx := 0 to |mapped|
      invariant lines == AllRowLines(mapped[..idx])
    {
      assert mapped[..idx + 1][..idx] == mapped[..idx];
      var printed := PrintRow(mapped[idx]);
      lines := lines + printed;
    }
    assert mapped[..|mapped|] == mapped;
  }

  /** The body of gen_interface's loop for one struct. */
  method StructTable(typeName: string, suffix: string, structName: string, d: MemberDict,
                     ifaces: seq<Iface>) returns (lines: seq<string>)
    ensures lines == StructLines(typeName, suffix, structName, d, ifaces)
  {
    var mapped := MappedRows(structName, d, ifaces);
    if |mapped| == 0 {
      return [];
    }
    var body := PrintRows(mapped);
    lines := [Header(typeName, structName, suffix)] + body + [TERMINATOR, "};"];
  }
}
