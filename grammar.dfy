/**
 * The lexical grammar of an ango definition file: the regular expressions
 * the parser compiles at start-up, written as explicit recognisers, and the
 * two string splitters it uses (split on commas, split on white space).
 *
 * Go's regexp package picks, among the matches that start leftmost, the one
 * a backtracking engine would find first (greedy quantifiers, alternatives in
 * order). Each recogniser below returns the sub-matches that choice yields.
 */
module Grammar {
  import opened Wrappers

  // ---- Character classes ----

  predicate IsLower(c: char) { 'a' <= c <= 'z' }

  /** `[a-zA-Z0-9]` */
  predicate IsIdentChar(c: char) { 'a' <= c <= 'z' || 'A' <= c <= 'Z' || '0' <= c <= '9' }

  /** `[ \t]` */
  predicate IsBlank(c: char) { c == ' ' || c == '\t' }

  predicate AllBlank(s: string) { forall i :: 0 <= i < |s| ==> IsBlank(s[i]) }

  /** `[a-z][a-zA-Z0-9]*`, matched against a whole string. */
  predicate IsIdentifier(s: string)
  {
    |s| > 0 && IsLower(s[0]) && forall i :: 1 <= i < |s| ==> IsIdentChar(s[i])
  }

  predicate HasPrefix(s: string, p: string) { |p| <= |s| && s[..|p|] == p }

  // ---- Runs ----

  /** Length of the longest prefix of `s` made of blanks. */
  function BlankRun(s: string): (n: nat)
    ensures n <= |s|
    ensures forall i :: 0 <= i < n ==> IsBlank(s[i])
    ensures n < |s| ==> !IsBlank(s[n])
  {
    if |s| == 0 || !IsBlank(s[0]) then 0 else 1 + BlankRun(s[1..])
  }

  /** Length of the longest prefix of `s` made of identifier characters. */
  function IdentRun(s: string): (n: nat)
    ensures n <= |s|
    ensures forall i :: 0 <= i < n ==> IsIdentChar(s[i])
    ensures n < |s| ==> !IsIdentChar(s[n])
  {
    if |s| == 0 || !IsIdentChar(s[0]) then 0 else 1 + IdentRun(s[1..])
  }

  /** Length of the longest prefix of `s` that does not contain `c`. */
  function RunUntil(s: string, c: char): (n: nat)
    ensures n <= |s|
    ensures forall i :: 0 <= i < n ==> s[i] != c
    ensures n < |s| ==> s[n] == c
  {
    if |s| == 0 || s[0] == c then 0 else 1 + RunUntil(s[1..], c)
  }

  lemma {:induction false} BlankRunOfBlanks(w: string, x: string)
    requires AllBlank(w)
    requires x == [] || !IsBlank(x[0])
    ensures BlankRun(w + x) == |w|
  {
    if w != [] {
      assert (w + x)[1..] == w[1..] + x;
      BlankRunOfBlanks(w[1..], x);
    }
  }

  lemma {:induction false} IdentRunOfWord(w: string, x: string)
    requires forall i :: 0 <= i < |w| ==> IsIdentChar(w[i])
    requires x == [] || !IsIdentChar(x[0])
    ensures IdentRun(w + x) == |w|
  {
    if w != [] {
      assert (w + x)[1..] == w[1..] + x;
      IdentRunOfWord(w[1..], x);
    }
  }

  // ---- Parameter types: `(?:int(?:8|16|32|64)?|uint(?:8|16|32|64)?|string)` ----

  /** The type names a parameter may carry. */
  const ParamTypeNames: set<string> :=
    {"int", "int8", "int16", "int32", "int64",
     "uint", "uint8", "uint16", "uint32", "uint64",
     "string"}

  /** The same names as a list, in the order the expression lists them. */
  const ParamTypeNameList: seq<string> :=
    ["int", "int8", "int16", "int32", "int64",
     "uint", "uint8", "uint16", "uint32", "uint64",
     "string"]

  /** `t` is one of `names`, checked name by name. */
  predicate InNames(t: string, names: seq<string>)
    decreases |names|
  {
    |names| > 0 && (t == names[0] || InNames(t, names[1..]))
  }

  lemma {:induction false} InNamesIff(t: string, names: seq<string>)
    ensures InNames(t, names) <==> t in names
    decreases |names|
  {
    if |names| > 0 {
      InNamesIff(t, names[1..]);
      assert names == [names[0]] + names[1..];
    }
  }

  /** A whole parameter type name. */
  predicate IsParamTypeName(t: string)
  {
    InNames(t, ParamTypeNameList)
  }

  lemma ParamTypeNameIff(t: string)
    ensures IsParamTypeName(t) <==> t in ParamTypeNames
  {
    InNamesIff(t, ParamTypeNameList);
  }

  /** The type-name alternation matched at the start of `s`: `int` or
      `uint` followed by the first width among 8, 16, 32, 64 that matches
      (or by none), else `string`. */
  function TypePrefix(s: string): (r: Option<string>)
    ensures r.Some? ==> r.value in ParamTypeNames && HasPrefix(s, r.value)
    ensures r.None? <==> !HasPrefix(s, "int") && !HasPrefix(s, "uint") && !HasPrefix(s, "string")
    // For this alternation the leftmost-first choice is the longest type name.
    ensures r.Some? ==> forall t :: t in ParamTypeNames && HasPrefix(s, t) ==> |t| <= |r.value|
  {
    if HasPrefix(s, "int") then
      assert s[..3][0] == s[0];
      if HasPrefix(s, "int8") then
        assert s[..4][3] == s[3];
        Some("int8")
      else if HasPrefix(s, "int16") then Some("int16")
      else if HasPrefix(s, "int32") then Some("int32")
      else if HasPrefix(s, "int64") then Some("int64")
      else Some("int")
    else if HasPrefix(s, "uint") then
      if HasPrefix(s, "uint8") then
        assert s[..5][4] == s[4];
        Some("uint8")
      else if HasPrefix(s, "uint16") then Some("uint16")
      else if HasPrefix(s, "uint32") then Some("uint32")
      else if HasPrefix(s, "uint64") then Some("uint64")
      else Some("uint")
    else if HasPrefix(s, "string") then Some("string")
    else None
  }

  lemma PrefixChar(s: string, p: string, k: nat)
    requires HasPrefix(s, p) && k < |p|
    ensures s[k] == p[k]
  {
    assert s[..|p|][k] == s[k];
  }

  /** A whole type name followed by anything that is not an identifier
      character is read back as that type name. */
  lemma TypePrefixOfName(t: string, x: string)
    requires t in ParamTypeNames
    requires x == [] || !IsIdentChar(x[0])
    ensures TypePrefix(t + x) == Some(t)
  {
    var s := t + x;
    assert s[..|t|] == t;
    if |x| > 0 {
      assert s[|t|] == x[0];
    }
    if t[0] != 'i' && HasPrefix(s, "int") {
      PrefixChar(s, "int", 0);
    }
    if t[0] == 's' && HasPrefix(s, "uint") {
      PrefixChar(s, "uint", 0);
    }
    if t == "int" {
      forall p | p in {"int8", "int16", "int32", "int64"} ensures !HasPrefix(s, p) {
        if HasPrefix(s, p) { PrefixChar(s, p, 3); }
      }
    } else if t == "uint" {
      forall p | p in {"uint8", "uint16", "uint32", "uint64"} ensures !HasPrefix(s, p) {
        if HasPrefix(s, p) { PrefixChar(s, p, 4); }
      }
    } else if t == "int16" || t == "int32" || t == "int64" {
      assert s[3] == t[3];
    } else if t == "uint16" || t == "uint32" || t == "uint64" {
      assert s[4] == t[4];
    }
  }

  // ---- Name line: `^name[ \t]+([a-z][a-zA-Z0-9]*)$` ----

  /** The captured identifier, or None when the line does not match. */
  function MatchName(line: string): (r: Option<string>)
    ensures r.Some? ==> IsIdentifier(r.value)
  {
    if !HasPrefix(line, "name") then None
    else
      var rest := line[4..];
      var n := BlankRun(rest);
      if n > 0 && IsIdentifier(rest[n..]) then Some(rest[n..]) else None
  }

  /** MatchName accepts exactly the lines of the form `name`, one or more
      blanks, an identifier; and it captures that identifier. */
  lemma MatchNameIff(line: string, id: string)
    ensures MatchName(line) == Some(id) <==>
      IsIdentifier(id) && exists w :: |w| > 0 && AllBlank(w) && line == "name" + w + id
  {
    if MatchName(line) == Some(id) {
      MatchNameSome(line);
    }
    if IsIdentifier(id) && exists w :: |w| > 0 && AllBlank(w) && line == "name" + w + id {
      var w :| |w| > 0 && AllBlank(w) && line == "name" + w + id;
      MatchNameOfParts(line, w, id);
    }
  }

  lemma MatchNameSome(line: string)
    requires MatchName(line).Some?
    ensures var id := MatchName(line).value;
      exists w :: |w| > 0 && AllBlank(w) && line == "name" + w + id
  {
    var rest := line[4..];
    var n := BlankRun(rest);
    var w := rest[..n];
    var id := rest[n..];
    assert MatchName(line).value == id;
    assert |w| > 0 && AllBlank(w);
    assert line[..4] == "name";
    assert line == "name" + w + id by {
      assert line == line[..4] + rest;
      assert rest == w + id;
    }
  }

  lemma MatchNameOfParts(line: string, w: string, id: string)
    requires IsIdentifier(id) && |w| > 0 && AllBlank(w) && line == "name" + w + id
    ensures MatchName(line) == Some(id)
  {
    assert line[..4] == "name";
    assert line[4..] == w + id;
    BlankRunOfBlanks(w, id);
    assert line[4..][|w|..] == id;
  }

  // ---- Parameters: `[ \t]*IDENT[ \t]+TYPE[ \t]*` ----

  datatype ParamCapture = ParamCapture(name: string, typeName: string)

  /** The parameter expression matched at the START of `s` (a prefix of `s`
      need match), with its two sub-matches. */
  function MatchParamAt(s: string): (r: Option<ParamCapture>)
    ensures r.Some? ==> IsIdentifier(r.value.name) && r.value.typeName in ParamTypeNames
  {
    var s1 := s[BlankRun(s)..];
    var n := IdentRun(s1);
    if n == 0 || !IsLower(s1[0]) then None
    else
      var s2 := s1[n..];
      var b := BlankRun(s2);
      if b == 0 then None
      else
        match TypePrefix(s2[b..])
        case None => None
        case Some(t) => Some(ParamCapture(s1[..n], t))
  }

  /** The parameter expression searched anywhere in `s`, as the parser's
      unanchored regexpParameter does: the match that starts leftmost. */
  function FindParam(s: string): (r: Option<ParamCapture>)
    ensures r.Some? ==> IsIdentifier(r.value.name) && r.value.typeName in ParamTypeNames
    ensures MatchParamAt(s).Some? ==> r == MatchParamAt(s)
    decreases |s|
  {
    match MatchParamAt(s)
    case Some(c) => Some(c)
    case None => if s == [] then None else FindParam(s[1..])
  }

  /** A whole piece of a parameter list in the procedure expression: blanks,
      identifier, blanks, type name, blanks, and nothing else. */
  predicate IsParamText(p: string)
  {
    var s1 := p[BlankRun(p)..];
    var n := IdentRun(s1);
    n > 0 && IsLower(s1[0]) &&
    var s2 := s1[n..];
    var b := BlankRun(s2);
    b > 0 &&
    var s3 := s2[b..];
    var t := IdentRun(s3);
    IsParamTypeName(s3[..t]) && AllBlank(s3[t..])
  }

  /** A well-formed piece matches the parameter expression at its start,
      capturing the piece's identifier and its whole type name. */
  lemma MatchParamAtOfParamText(p: string)
    requires IsParamText(p)
    ensures var s1 := p[BlankRun(p)..];
            var n := IdentRun(s1);
            var s2 := s1[n..];
            var s3 := s2[BlankRun(s2)..];
            MatchParamAt(p) == Some(ParamCapture(s1[..n], s3[..IdentRun(s3)]))
  {
    var s1 := p[BlankRun(p)..];
    var n := IdentRun(s1);
    var s2 := s1[n..];
    var b := BlankRun(s2);
    var s3 := s2[b..];
    var t := IdentRun(s3);
    ParamTypeNameIff(s3[..t]);
    assert t == |s3| || !IsIdentChar(s3[t]) by {
      if t < |s3| { assert s3[t] == s3[t..][0]; }
    }
    TypePrefixOfWord(s3, t);
  }

  /** A type name that ends a word is read back as that type name. */
  lemma TypePrefixOfWord(s: string, t: nat)
    requires t <= |s| && s[..t] in ParamTypeNames
    requires t == |s| || !IsIdentChar(s[t])
    ensures TypePrefix(s) == Some(s[..t])
  {
    var x := s[t..];
    assert s == s[..t] + x;
    assert x == [] || x[0] == s[t];
    TypePrefixOfName(s[..t], x);
  }

  /** On a well-formed piece the unanchored search finds the match at its
      start. */
  lemma FindParamOfParamText(p: string)
    requires IsParamText(p)
    ensures FindParam(p).Some? && FindParam(p) == MatchParamAt(p)
  {
    MatchParamAtOfParamText(p);
  }

  // ---- Splitting on a separator: strings.Split(s, sep) ----

  /** The pieces of `s` between occurrences of `sep`; never empty. */
  function Split(s: string, sep: char): (r: seq<string>)
    ensures |r| > 0
    ensures forall i :: 0 <= i < |r| ==> sep !in r[i]
  {
    if s == [] then [""]
    else
      var rest := Split(s[1..], sep);
      if s[0] == sep then [""] + rest
      else [[s[0]] + rest[0]] + rest[1..]
  }

  /** The pieces glued back together with `sep` between them. */
  function Join(pieces: seq<string>, sep: char): string
    requires |pieces| > 0
  {
    if |pieces| == 1 then pieces[0] else pieces[0] + [sep] + Join(pieces[1..], sep)
  }

  /** Joining the pieces of a split gives back the string. */
  lemma {:induction false} JoinSplit(s: string, sep: char)
    ensures Join(Split(s, sep), sep) == s
  {
    if s != [] {
      var rest := Split(s[1..], sep);
      JoinSplit(s[1..], sep);
      if s[0] != sep {
        var r := Split(s, sep);
        if |rest| == 1 {
          assert r == [[s[0]] + rest[0]];
        } else {
          assert r[1..] == rest[1..];
          assert Join(r, sep) == [s[0]] + rest[0] + [sep] + Join(rest[1..], sep);
          assert Join(rest, sep) == rest[0] + [sep] + Join(rest[1..], sep);
          assert s == [s[0]] + s[1..];
        }
      } else {
        assert Split(s, sep)[1..] == rest;
        assert s == [sep] + s[1..];
      }
    }
  }

  /** Splitting pieces that were joined gives back the pieces. */
  lemma {:induction false} SplitJoin(pieces: seq<string>, sep: char)
    requires |pieces| > 0
    requires forall i :: 0 <= i < |pieces| ==> sep !in pieces[i]
    ensures Split(Join(pieces, sep), sep) == pieces
  {
    if |pieces| == 1 {
      SplitNoSep(pieces[0], sep);
    } else {
      SplitJoin(pieces[1..], sep);
      SplitPrefix(pieces[0], Join(pieces[1..], sep), sep);
      assert [pieces[0]] + pieces[1..] == pieces;
    }
  }

  lemma {:induction false} SplitNoSep(s: string, sep: char)
    requires sep !in s
    ensures Split(s, sep) == [s]
  {
    if s != [] {
      SplitNoSep(s[1..], sep);
      assert [s[0]] + s[1..] == s;
    }
  }

  lemma {:induction false} SplitPrefix(a: string, b: string, sep: char)
    requires sep !in a
    ensures Split(a + [sep] + b, sep) == [a] + Split(b, sep)
  {
    if a == [] {
      assert ([sep] + b)[1..] == b;
    } else {
      assert (a + [sep] + b)[1..] == a[1..] + [sep] + b;
      SplitPrefix(a[1..], b, sep);
      assert [a[0]] + a[1..] == a;
    }
  }

  // ---- Splitting on white space: strings.Fields(s) ----

  /** unicode.IsSpace: the Latin-1 spaces and the other Unicode White_Space
      characters. */
  predicate IsSpace(c: char)
  {
    c == '\t' || c == '\n' || c == '\U{B}' || c == '\U{C}' || c == '\r' || c == ' '
    || c == '\U{85}' || c == '\U{A0}' || c == '\U{1680}'
    || ('\U{2000}' <= c <= '\U{200A}')
    || c == '\U{2028}' || c == '\U{2029}' || c == '\U{202F}' || c == '\U{205F}' || c == '\U{3000}'
  }

  predicate NoSpace(s: string) { forall i :: 0 <= i < |s| ==> !IsSpace(s[i]) }

  /** Length of the longest prefix of `s` without white space. */
  function WordRun(s: string): (n: nat)
    ensures n <= |s|
    ensures forall i :: 0 <= i < n ==> !IsSpace(s[i])
    ensures n < |s| ==> IsSpace(s[n])
  {
    if |s| == 0 || IsSpace(s[0]) then 0 else 1 + WordRun(s[1..])
  }

  /** The maximal runs of non-space characters of `s`, in order. */
  function Fields(s: string): (r: seq<string>)
    ensures forall i :: 0 <= i < |r| ==> |r[i]| > 0 && NoSpace(r[i])
    decreases |s|
  {
    if s == [] then []
    else if IsSpace(s[0]) then Fields(s[1..])
    else
      var n := WordRun(s);
      [s[..n]] + Fields(s[n..])
  }

  lemma {:induction false} FieldsSkipsSpace(w: string, s: string)
    requires forall i :: 0 <= i < |w| ==> IsSpace(w[i])
    ensures Fields(w + s) == Fields(s)
  {
    if w != [] {
      assert (w + s)[0] == w[0];
      assert (w + s)[1..] == w[1..] + s;
      FieldsSkipsSpace(w[1..], s);
    } else {
      assert w + s == s;
    }
  }

  lemma {:induction false} WordRunOfWord(f: string, x: string)
    requires NoSpace(f)
    requires x == [] || IsSpace(x[0])
    ensures WordRun(f + x) == |f|
  {
    if f != [] {
      assert (f + x)[1..] == f[1..] + x;
      WordRunOfWord(f[1..], x);
    }
  }

  /** The fields of words joined by single spaces are those words. */
  lemma {:induction false} FieldsOfJoin(words: seq<string>)
    requires |words| > 0
    requires forall i :: 0 <= i < |words| ==> |words[i]| > 0 && NoSpace(words[i])
    ensures Fields(Join(words, ' ')) == words
  {
    var f := words[0];
    if |words| == 1 {
      WordRunOfWord(f, []);
      assert f + [] == f;
      assert f[|f|..] == [];
    } else {
      var rest := [' '] + Join(words[1..], ' ');
      assert Join(words, ' ') == f + rest;
      WordRunOfWord(f, rest);
      assert (f + rest)[..|f|] == f;
      assert (f + rest)[|f|..] == rest;
      FieldsSkipsSpace([' '], Join(words[1..], ' '));
      FieldsOfJoin(words[1..]);
      assert [f] + words[1..] == words;
    }
  }

  // ---- Type expressions in a type declaration ----

  /** `^[a-z][a-zA-Z0-9]*$` */
  predicate IsSimpleTypeText(s: string) { IsIdentifier(s) }

  /** `^\[\][a-z][a-zA-Z0-9]*$` */
  predicate IsSliceTypeText(s: string) { HasPrefix(s, "[]") && IsIdentifier(s[2..]) }

  datatype MapCapture = MapCapture(key: string, value: string)

  /** `^map\[([a-z][a-zA-Z0-9]*)\]([a-z][a-zA-Z0-9]*)$`, with its two sub-matches. */
  function MatchMapType(s: string): (r: Option<MapCapture>)
  {
    if !HasPrefix(s, "map[") then None
    else
      var rest := s[4..];
      var n := IdentRun(rest);
      var key := rest[..n];
      var tail := rest[n..];
      if IsIdentifier(key) && |tail| > 0 && tail[0] == ']' && IsIdentifier(tail[1..])
      then Some(MapCapture(key, tail[1..]))
      else None
  }

  /** MatchMapType accepts exactly `map[` key `]` value, both identifiers. */
  lemma MatchMapTypeIff(s: string, key: string, value: string)
    ensures MatchMapType(s) == Some(MapCapture(key, value)) <==>
      IsIdentifier(key) && IsIdentifier(value) && s == "map[" + key + "]" + value
  {
    if IsIdentifier(key) && IsIdentifier(value) && s == "map[" + key + "]" + value {
      assert s[4..] == key + ("]" + value);
      IdentRunOfWord(key, "]" + value);
      assert s[4..][..|key|] == key;
      assert s[4..][|key|..] == "]" + value;
    }
  }

  // ---- Procedure line ----
  // ^(server|client)[ \t]+(?:(oneway)[ \t]+)?(IDENT)[ \t]*(GROUP)[ \t]*((?:GROUP)?)[ \t]*$
  // where GROUP is \((?:PARAM)?(?:,PARAM)*\)

  /** The text between the parentheses of a parameter group: an optional
      first parameter, then any number of comma-led parameters. */
  predicate IsParamListText(c: string)
  {
    var pieces := Split(c, ',');
    (pieces[0] == "" || IsParamText(pieces[0]))
    && forall i :: 1 <= i < |pieces| ==> IsParamText(pieces[i])
  }

  /** A whole parameter group, parentheses included. */
  predicate IsParamGroup(g: string)
  {
    |g| >= 2 && g[0] == '(' && g[|g| - 1] == ')' && IsParamListText(g[1..|g| - 1])
  }

  /** Length of the parameter group at the start of `s`, if there is one. */
  function MatchGroup(s: string): (r: Option<nat>)
    ensures r.Some? ==> r.value <= |s| && IsParamGroup(s[..r.value])
  {
    if |s| == 0 || s[0] != '(' then None
    else
      var j := 1 + RunUntil(s[1..], ')');
      if j < |s| && IsParamListText(s[1..j]) then
        assert s[..j + 1][1..j] == s[1..j];
        Some(j + 1)
      else None
  }

  datatype ProcCapture = ProcCapture(direction: string, oneway: bool, name: string, args: string, rets: string)

  datatype TailCapture = TailCapture(name: string, args: string, rets: string)

  datatype GroupsCapture = GroupsCapture(args: string, rets: string)

  /** The argument group, blanks, the optional return group and trailing
      blanks, up to the end of the text. */
  function MatchGroups(s: string): (r: Option<GroupsCapture>)
    ensures r.Some? ==> IsParamGroup(r.value.args)
    ensures r.Some? ==> r.value.rets == "" || IsParamGroup(r.value.rets)
  {
    match MatchGroup(s)
    case None => None
    case Some(g) =>
      var s1 := s[g..];
      var s2 := s1[BlankRun(s1)..];
      if s2 == "" then Some(GroupsCapture(s[..g], ""))
      else
        match MatchGroup(s2)
        case None => None
        case Some(g2) =>
          if AllBlank(s2[g2..]) then Some(GroupsCapture(s[..g], s2[..g2])) else None
  }

  /** Everything after the direction and the optional `oneway`: name,
      blanks, then the groups. */
  function MatchProcedureTail(s: string): (r: Option<TailCapture>)
    ensures r.Some? ==> IsIdentifier(r.value.name) && IsParamGroup(r.value.args)
    ensures r.Some? ==> r.value.rets == "" || IsParamGroup(r.value.rets)
  {
    var n := IdentRun(s);
    if n == 0 || !IsLower(s[0]) then None
    else
      var s1 := s[n..];
      match MatchGroups(s1[BlankRun(s1)..])
      case None => None
      case Some(g) => Some(TailCapture(s[..n], g.args, g.rets))
  }

  /** The rest of a procedure line read with the `oneway` group taken:
      `oneway`, blanks, then the tail. */
  function MatchOnewayTail(s: string): (r: Option<TailCapture>)
    ensures r.Some? ==> IsIdentifier(r.value.name) && IsParamGroup(r.value.args)
    ensures r.Some? ==> r.value.rets == "" || IsParamGroup(r.value.rets)
  {
    if |s| > 6 && s[..6] == "oneway" && IsBlank(s[6]) then
      var s1 := s[6..];
      MatchProcedureTail(s1[BlankRun(s1)..])
    else None
  }

  /** The procedure expression with its sub-matches 1 to 5 (`oneway` may
      also be a procedure's name). */
  function MatchProcedure(line: string): (r: Option<ProcCapture>)
    ensures r.Some? ==> IsIdentifier(r.value.name)
  {
    if !HasPrefix(line, "server") && !HasPrefix(line, "client") then None
    else
      var dir := if HasPrefix(line, "server") then "server" else "client";
      var s1 := line[6..];
      var b := BlankRun(s1);
      if b == 0 then None
      else
        MatchRest(dir, s1[b..])
  }

  /** The rest of a procedure line after the direction and its blanks: the
      optional `oneway` group is tried first; only when the rest of the line
      cannot then match is it read without it. */
  function MatchRest(dir: string, s: string): (r: Option<ProcCapture>)
    ensures r.Some? ==> r.value.direction == dir && IsIdentifier(r.value.name)
  {
    match MatchOnewayTail(s)
    case Some(t) => Some(ProcCapture(dir, true, t.name, t.args, t.rets))
    case None =>
      match MatchProcedureTail(s)
      case None => None
      case Some(t) => Some(ProcCapture(dir, false, t.name, t.args, t.rets))
  }

  /** What a matched procedure line captures: its leading direction word,
      an identifier, an argument group and an optional return group. */
  lemma MatchProcedureShape(line: string)
    ensures var r := MatchProcedure(line);
      r.Some? ==>
        r.value.direction in {"server", "client"} && HasPrefix(line, r.value.direction) &&
        IsIdentifier(r.value.name) && IsParamGroup(r.value.args) &&
        (r.value.rets == "" || IsParamGroup(r.value.rets))
  {
  }

  // ---- Which texts the procedure recognisers accept ----

  lemma Cut<T>(s: seq<T>, i: nat)
    requires i <= |s|
    ensures s == s[..i] + s[i..]
  {
  }

  lemma Cut3<T>(s: seq<T>, i: nat, j: nat)
    requires i <= |s| && j <= |s| - i
    ensures s == s[..i] + (s[i..][..j] + s[i..][j..])
  {
    assert s[i..] == s[i..][..j] + s[i..][j..];
  }

  lemma Parts<T>(a: seq<T>, b: seq<T>)
    ensures (a + b)[..|a|] == a && (a + b)[|a|..] == b
  {
  }

  /** Blanks and identifier characters only. */
  predicate IsWordChars(s: string)
  {
    forall i :: 0 <= i < |s| ==> IsBlank(s[i]) || IsIdentChar(s[i])
  }

  lemma WordCharsCut(s: string, i: nat)
    requires i <= |s| && IsWordChars(s[..i]) && IsWordChars(s[i..])
    ensures IsWordChars(s)
  {
    forall j | 0 <= j < |s| ensures IsBlank(s[j]) || IsIdentChar(s[j]) {
      if j < i {
        assert s[j] == s[..i][j];
      } else {
        assert s[j] == s[i..][j - i];
      }
    }
  }

  /** Only blanks and identifier characters occur in a parameter text. */
  lemma ParamTextChars(p: string)
    requires IsParamText(p)
    ensures IsWordChars(p)
  {
    var k := BlankRun(p);
    var s1 := p[k..];
    var n := IdentRun(s1);
    var s2 := s1[n..];
    var b := BlankRun(s2);
    var s3 := s2[b..];
    var t := IdentRun(s3);
    assert AllBlank(s3[t..]);
    WordCharsCut(s3, t);
    WordCharsCut(s2, b);
    WordCharsCut(s1, n);
    WordCharsCut(p, k);
  }

  lemma {:induction false} JoinAvoids(pieces: seq<string>, sep: char, x: char)
    requires |pieces| > 0 && x != sep
    requires forall i :: 0 <= i < |pieces| ==> x !in pieces[i]
    ensures x !in Join(pieces, sep)
  {
    if |pieces| > 1 {
      JoinAvoids(pieces[1..], sep, x);
      assert pieces[0] == pieces[..][0];
    }
  }

  lemma PiecesNoClose(pieces: seq<string>)
    requires |pieces| > 0
    requires pieces[0] == "" || IsParamText(pieces[0])
    requires forall i :: 1 <= i < |pieces| ==> IsParamText(pieces[i])
    ensures forall i :: 0 <= i < |pieces| ==> ')' !in pieces[i]
  {
    forall i | 0 <= i < |pieces| ensures ')' !in pieces[i] {
      if pieces[i] != "" {
        ParamTextChars(pieces[i]);
      }
    }
  }

  /** A parameter list has no closing parenthesis, so the first `)` after
      `(` ends the group. */
  lemma ParamListNoClose(c: string)
    requires IsParamListText(c)
    ensures ')' !in c
  {
    var pieces := Split(c, ',');
    PiecesNoClose(pieces);
    JoinAvoids(pieces, ',', ')');
    JoinSplit(c, ',');
  }

  lemma {:induction false} RunUntilOfWord(w: string, x: string, c: char)
    requires c !in w
    requires x != [] && x[0] == c
    ensures RunUntil(w + x, c) == |w|
  {
    if w != [] {
      assert (w + x)[1..] == w[1..] + x;
      RunUntilOfWord(w[1..], x, c);
    }
  }

  /** A parameter group at the start of a text is the group matched there. */
  /** The first `)` after the `(` of a group without inner `)` is its own. */
  lemma GroupRun(g: string, x: string)
    requires |g| >= 2 && g[|g| - 1] == ')' && ')' !in g[1..|g| - 1]
    ensures 1 + RunUntil((g + x)[1..], ')') == |g| - 1
    ensures (g + x)[1..|g| - 1] == g[1..|g| - 1]
  {
    var c := g[1..|g| - 1];
    assert g == g[..|g| - 1] + [')'];
    assert (g + x)[1..] == c + ([')'] + x);
    RunUntilOfWord(c, [')'] + x, ')');
  }

  lemma MatchGroupAt(s: string, j: nat)
    requires 0 < j < |s| && s[0] == '(' && 1 + RunUntil(s[1..], ')') == j
    requires IsParamListText(s[1..j])
    ensures MatchGroup(s) == Some(j + 1)
  {
  }

  lemma MatchGroupOfGroup(g: string, x: string)
    requires IsParamGroup(g)
    ensures MatchGroup(g + x) == Some(|g|)
  {
    var c := g[1..|g| - 1];
    ParamListNoClose(c);
    GroupRun(g, x);
    MatchGroupAt(g + x, |g| - 1);
  }

  /** MatchGroup finds a group of length k exactly when the first k
      characters of the text form a parameter group. */
  lemma MatchGroupIff(s: string, k: nat)
    ensures MatchGroup(s) == Some(k) <==> k <= |s| && IsParamGroup(s[..k])
  {
    if k <= |s| && IsParamGroup(s[..k]) {
      Cut(s, k);
      MatchGroupOfGroup(s[..k], s[k..]);
    }
  }

  /** `GROUP[ \t]*(GROUP)?[ \t]*` with its sub-matches. */
  ghost predicate IsGroups(s: string, c: GroupsCapture)
  {
    IsParamGroup(c.args) && (c.rets == "" || IsParamGroup(c.rets)) &&
    exists w2, w3 :: AllBlank(w2) && AllBlank(w3) && s == c.args + (w2 + (c.rets + w3))
  }

  lemma IsGroupsIntro(s: string, c: GroupsCapture, w2: string, w3: string)
    requires IsParamGroup(c.args) && (c.rets == "" || IsParamGroup(c.rets))
    requires AllBlank(w2) && AllBlank(w3)
    requires s == c.args + (w2 + (c.rets + w3))
    ensures IsGroups(s, c)
  {
  }

  lemma MatchGroupsOfParts(s: string, c: GroupsCapture, w2: string, w3: string)
    requires IsParamGroup(c.args) && (c.rets == "" || IsParamGroup(c.rets))
    requires AllBlank(w2) && AllBlank(w3)
    requires s == c.args + (w2 + (c.rets + w3))
    ensures MatchGroups(s) == Some(c)
  {
    MatchGroupOfGroup(c.args, w2 + (c.rets + w3));
    Parts(c.args, w2 + (c.rets + w3));
    var s1 := s[|c.args|..];
    if c.rets == "" {
      assert s1 == w2 + w3;
      assert AllBlank(w2 + w3);
      BlankRunOfBlanks(w2 + w3, []);
      Parts(s1, []);
    } else {
      BlankRunOfBlanks(w2, c.rets + w3);
      Parts(w2, c.rets + w3);
      MatchGroupOfGroup(c.rets, w3);
      Parts(c.rets, w3);
    }
  }

  /** The groups read off at the positions MatchGroups finds them. */
  lemma IsGroupsAt(s: string, c: GroupsCapture, g: nat, k: nat, g2: nat)
    requires g <= |s| && k <= |s| - g && g2 <= |s| - g - k
    requires IsParamGroup(c.args) && (c.rets == "" || IsParamGroup(c.rets))
    requires c.args == s[..g] && AllBlank(s[g..][..k])
    requires c.rets == s[g..][k..][..g2] && AllBlank(s[g..][k..][g2..])
    ensures IsGroups(s, c)
  {
    var s2 := s[g..][k..];
    Cut3(s, g, k);
    Cut(s2, g2);
    IsGroupsIntro(s, c, s[g..][..k], s2[g2..]);
  }

  lemma MatchGroupsSome(s: string)
    requires MatchGroups(s).Some?
    ensures IsGroups(s, MatchGroups(s).value)
  {
    var c := MatchGroups(s).value;
    var g := MatchGroup(s).value;
    var s1 := s[g..];
    var k := BlankRun(s1);
    var s2 := s1[k..];
    if s2 == "" {
      assert c.rets == "" && c.args == s[..g];
      IsGroupsAt(s, c, g, k, 0);
    } else {
      var g2 := MatchGroup(s2).value;
      assert c.args == s[..g] && AllBlank(s2[g2..]) && c.rets == s2[..g2];
      IsGroupsAt(s, c, g, k, g2);
    }
  }

  /** MatchGroups accepts exactly an argument group and an optional return
      group, separated and followed by blanks, with those as sub-matches. */
  lemma MatchGroupsIff(s: string, c: GroupsCapture)
    ensures MatchGroups(s) == Some(c) <==> IsGroups(s, c)
  {
    if MatchGroups(s) == Some(c) {
      MatchGroupsSome(s);
    }
    if IsGroups(s, c) {
      var w2, w3 :| AllBlank(w2) && AllBlank(w3) && s == c.args + (w2 + (c.rets + w3));
      MatchGroupsOfParts(s, c, w2, w3);
    }
  }

  /** A group text starts with its opening parenthesis. */
  lemma GroupsStart(s: string, c: GroupsCapture)
    requires IsGroups(s, c)
    ensures |s| > 0 && s[0] == '('
  {
    var w2, w3 :| AllBlank(w2) && AllBlank(w3) && s == c.args + (w2 + (c.rets + w3));
    assert s[0] == c.args[0];
  }

  /** `IDENT[ \t]*` followed by the groups. */
  ghost predicate IsProcTail(s: string, c: TailCapture)
  {
    IsIdentifier(c.name) &&
    exists w1, g :: AllBlank(w1) && s == c.name + (w1 + g) && IsGroups(g, GroupsCapture(c.args, c.rets))
  }

  lemma IsProcTailIntro(s: string, c: TailCapture, w1: string, g: string)
    requires IsIdentifier(c.name) && AllBlank(w1) && s == c.name + (w1 + g)
    requires IsGroups(g, GroupsCapture(c.args, c.rets))
    ensures IsProcTail(s, c)
  {
  }

  lemma IsProcTailAt(s: string, c: TailCapture, n: nat, k: nat)
    requires n <= |s| && k <= |s| - n
    requires IsIdentifier(c.name) && c.name == s[..n] && AllBlank(s[n..][..k])
    requires IsGroups(s[n..][k..], GroupsCapture(c.args, c.rets))
    ensures IsProcTail(s, c)
  {
    Cut3(s, n, k);
  }

  lemma MatchProcedureTailSome(s: string)
    requires MatchProcedureTail(s).Some?
    ensures IsProcTail(s, MatchProcedureTail(s).value)
  {
    var c := MatchProcedureTail(s).value;
    var n := IdentRun(s);
    var s1 := s[n..];
    var k := BlankRun(s1);
    var g := s1[k..];
    var gc := GroupsCapture(c.args, c.rets);
    assert c.name == s[..n] && MatchGroups(g) == Some(gc) && AllBlank(s1[..k]);
    MatchGroupsSome(g);
    IsProcTailAt(s, c, n, k);
  }

  lemma MatchProcedureTailOfParts(s: string, c: TailCapture, w1: string, g: string)
    requires IsIdentifier(c.name) && AllBlank(w1) && s == c.name + (w1 + g)
    requires IsGroups(g, GroupsCapture(c.args, c.rets))
    ensures MatchProcedureTail(s) == Some(c)
  {
    var gc := GroupsCapture(c.args, c.rets);
    GroupsStart(g, gc);
    assert (w1 + g)[0] == if w1 == [] then '(' else w1[0];
    IdentRunOfWord(c.name, w1 + g);
    Parts(c.name, w1 + g);
    BlankRunOfBlanks(w1, g);
    Parts(w1, g);
    MatchGroupsIff(g, gc);
  }

  /** MatchProcedureTail accepts exactly an identifier, blanks and the
      groups, with those as its sub-matches. */
  lemma MatchProcedureTailIff(s: string, c: TailCapture)
    ensures MatchProcedureTail(s) == Some(c) <==> IsProcTail(s, c)
  {
    if MatchProcedureTail(s) == Some(c) {
      MatchProcedureTailSome(s);
    }
    if IsProcTail(s, c) {
      var w1, g :| AllBlank(w1) && s == c.name + (w1 + g) && IsGroups(g, GroupsCapture(c.args, c.rets));
      MatchProcedureTailOfParts(s, c, w1, g);
    }
  }

  /** A tail starts with the identifier it names. */
  lemma ProcTailStart(s: string, c: TailCapture)
    requires IsProcTail(s, c)
    ensures |s| > 0 && IsLower(s[0])
  {
    var w1, g :| AllBlank(w1) && s == c.name + (w1 + g) && IsGroups(g, GroupsCapture(c.args, c.rets));
    assert s[0] == c.name[0];
  }

  /** `oneway[ \t]+` followed by a tail. */
  ghost predicate IsOnewayTail(s: string, c: TailCapture)
  {
    exists w, t :: |w| > 0 && AllBlank(w) && s == "oneway" + (w + t) && IsProcTail(t, c)
  }

  lemma IsOnewayTailIntro(s: string, c: TailCapture, w: string, t: string)
    requires |w| > 0 && AllBlank(w) && s == "oneway" + (w + t) && IsProcTail(t, c)
    ensures IsOnewayTail(s, c)
  {
  }

  lemma IsOnewayTailAt(s: string, c: TailCapture, k: nat)
    requires 6 <= |s| && 0 < k <= |s| - 6
    requires s[..6] == "oneway" && AllBlank(s[6..][..k]) && IsProcTail(s[6..][k..], c)
    ensures IsOnewayTail(s, c)
  {
    Cut3(s, 6, k);
  }

  /** A run of blanks at the head of `s` is itself all blanks. */
  lemma BlankRunBlanks(s: string)
    ensures AllBlank(s[..BlankRun(s)])
  {
  }

  /** Where a matched `oneway` tail splits: `oneway`, blanks, the tail. */
  lemma MatchOnewayTailAt(s: string)
    requires |s| > 6 && s[..6] == "oneway" && IsBlank(s[6])
    ensures MatchOnewayTail(s) == MatchProcedureTail(s[6..][BlankRun(s[6..])..])
  {
  }

  lemma MatchOnewayTailSome(s: string)
    requires MatchOnewayTail(s).Some?
    ensures IsOnewayTail(s, MatchOnewayTail(s).value)
  {
    assert |s| > 6 && s[..6] == "oneway" && IsBlank(s[6]);
    var s1 := s[6..];
    var k := BlankRun(s1);
    assert k > 0 by { assert s1[0] == s[6]; }
    BlankRunBlanks(s1);
    MatchOnewayTailAt(s);
    MatchProcedureTailSome(s1[k..]);
    IsOnewayTailAt(s, MatchOnewayTail(s).value, k);
  }

  lemma MatchOnewayTailOfParts(s: string, c: TailCapture, w: string, t: string)
    requires |w| > 0 && AllBlank(w) && s == "oneway" + (w + t) && IsProcTail(t, c)
    ensures MatchOnewayTail(s) == Some(c)
  {
    ProcTailStart(t, c);
    Parts("oneway", w + t);
    assert s[6] == w[0];
    BlankRunOfBlanks(w, t);
    Parts(w, t);
    MatchProcedureTailIff(t, c);
  }

  /** MatchOnewayTail accepts exactly `oneway`, blanks and a tail, with the
      tail's sub-matches. */
  lemma MatchOnewayTailIff(s: string, c: TailCapture)
    ensures MatchOnewayTail(s) == Some(c) <==> IsOnewayTail(s, c)
  {
    if MatchOnewayTail(s) == Some(c) {
      MatchOnewayTailSome(s);
    }
    if IsOnewayTail(s, c) {
      var w, t :| |w| > 0 && AllBlank(w) && s == "oneway" + (w + t) && IsProcTail(t, c);
      MatchOnewayTailOfParts(s, c, w, t);
    }
  }

  /** The rest of a procedure line after the direction and its blanks, read
      as the expression reads it: with the `oneway` group when the rest then
      matches, and otherwise without it. */
  ghost predicate IsProcRest(rest: string, c: ProcCapture)
  {
    var t := TailCapture(c.name, c.args, c.rets);
    if c.oneway then IsOnewayTail(rest, t)
    else IsProcTail(rest, t) && forall t' :: !IsOnewayTail(rest, t')
  }

  /** A whole procedure line with its sub-matches. */
  ghost predicate IsProcLine(line: string, c: ProcCapture)
  {
    (c.direction == "server" || c.direction == "client") &&
    exists w, rest :: |w| > 0 && AllBlank(w) && line == c.direction + (w + rest) && IsProcRest(rest, c)
  }

  lemma IsProcLineAt(line: string, c: ProcCapture, k: nat)
    requires c.direction == "server" || c.direction == "client"
    requires 6 <= |line| && 0 < k <= |line| - 6
    requires line[..6] == c.direction && AllBlank(line[6..][..k]) && IsProcRest(line[6..][k..], c)
    ensures IsProcLine(line, c)
  {
    Cut3(line, 6, k);
  }

  lemma ProcRestStart(rest: string, c: ProcCapture)
    requires IsProcRest(rest, c)
    ensures |rest| > 0 && !IsBlank(rest[0])
  {
    var t := TailCapture(c.name, c.args, c.rets);
    if c.oneway {
      var w, u :| |w| > 0 && AllBlank(w) && rest == "oneway" + (w + u) && IsProcTail(u, t);
      assert rest[0] == 'o';
    } else {
      ProcTailStart(rest, t);
    }
  }

  /** The rest of a line read by MatchProcedure is read as IsProcRest says. */
  lemma MatchRestIff(rest: string, c: ProcCapture)
    ensures MatchRest(c.direction, rest) == Some(c) <==> IsProcRest(rest, c)
  {
    var t := TailCapture(c.name, c.args, c.rets);
    MatchOnewayTailIff(rest, t);
    MatchProcedureTailIff(rest, t);
    if MatchOnewayTail(rest).Some? {
      MatchOnewayTailIff(rest, MatchOnewayTail(rest).value);
    } else {
      forall t' ensures !IsOnewayTail(rest, t') {
        MatchOnewayTailIff(rest, t');
      }
    }
  }

  /** Where a matched procedure line splits: direction, blanks, rest. */
  lemma MatchProcedureCut(line: string)
    requires MatchProcedure(line).Some?
    ensures var c := MatchProcedure(line).value;
      var k := BlankRun(line[6..]);
      (c.direction == "server" || c.direction == "client") &&
      6 <= |line| && 0 < k <= |line| - 6 && line[..6] == c.direction &&
      AllBlank(line[6..][..k]) && MatchRest(c.direction, line[6..][k..]) == Some(c)
  {
  }

  lemma MatchProcedureSome(line: string)
    requires MatchProcedure(line).Some?
    ensures IsProcLine(line, MatchProcedure(line).value)
  {
    var c := MatchProcedure(line).value;
    var k := BlankRun(line[6..]);
    MatchProcedureCut(line);
    MatchRestIff(line[6..][k..], c);
    IsProcLineAt(line, c, k);
  }

  lemma MatchProcedureOfParts(line: string, c: ProcCapture, w: string, rest: string)
    requires c.direction == "server" || c.direction == "client"
    requires |w| > 0 && AllBlank(w) && line == c.direction + (w + rest) && IsProcRest(rest, c)
    ensures MatchProcedure(line) == Some(c)
  {
    ProcRestStart(rest, c);
    Parts(c.direction, w + rest);
    assert HasPrefix(line, "server") <==> c.direction == "server";
    BlankRunOfBlanks(w, rest);
    Parts(w, rest);
    MatchRestIff(rest, c);
  }

  /** MatchProcedure accepts exactly the procedure lines, and its
      sub-matches are theirs: the `oneway` flag is set exactly when the
      rest of the line reads as `oneway`, blanks and a tail. */
  lemma MatchProcedureIff(line: string, c: ProcCapture)
    ensures MatchProcedure(line) == Some(c) <==> IsProcLine(line, c)
  {
    if MatchProcedure(line) == Some(c) {
      MatchProcedureSome(line);
    }
    if IsProcLine(line, c) {
      var w, rest :| |w| > 0 && AllBlank(w) && line == c.direction + (w + rest) && IsProcRest(rest, c);
      MatchProcedureOfParts(line, c, w, rest);
    }
  }

  /** A line whose rest is `oneway`, blanks and a tail is a oneway
      procedure with the tail's name, which may itself be `oneway`
      (`server oneway oneway(a int)`). */
  lemma OnewayTakenFirst(dir: string, w: string, w': string, t: string, tc: TailCapture)
    requires dir == "server" || dir == "client"
    requires |w| > 0 && AllBlank(w) && |w'| > 0 && AllBlank(w')
    requires IsProcTail(t, tc)
    ensures MatchProcedure(dir + (w + ("oneway" + (w' + t)))) ==
            Some(ProcCapture(dir, true, tc.name, tc.args, tc.rets))
  {
    var rest := "oneway" + (w' + t);
    var c := ProcCapture(dir, true, tc.name, tc.args, tc.rets);
    IsOnewayTailIntro(rest, tc, w', t);
    assert IsProcRest(rest, c);
    MatchProcedureOfParts(dir + (w + rest), c, w, rest);
  }

  /** When `oneway` and blanks are followed by the groups and no name, the
      line is read without the `oneway` group, as a two-way procedure named
      `oneway` (`server oneway (a int)`). */
  lemma OnewayAsName(dir: string, w: string, w1: string, g: string, gc: GroupsCapture)
    requires dir == "server" || dir == "client"
    requires |w| > 0 && AllBlank(w) && AllBlank(w1)
    requires IsGroups(g, gc)
    ensures MatchProcedure(dir + (w + ("oneway" + (w1 + g)))) ==
            Some(ProcCapture(dir, false, "oneway", gc.args, gc.rets))
  {
    var rest := "oneway" + (w1 + g);
    Parts("oneway", w1 + g);
    var c := ProcCapture(dir, false, "oneway", gc.args, gc.rets);
    var tc := TailCapture("oneway", gc.args, gc.rets);
    assert IsIdentifier("oneway");
    assert GroupsCapture(tc.args, tc.rets) == gc;
    IsProcTailIntro(rest, tc, w1, g);
    GroupsStart(g, gc);
    forall t' ensures !IsOnewayTail(rest, t') {
      if IsOnewayTail(rest, t') {
        var w', u :| |w'| > 0 && AllBlank(w') && rest == "oneway" + (w' + u) && IsProcTail(u, t');
        NoNameAfterBlanks(w1 + g, w', u, |w1|);
        ProcTailStart(u, t');
      }
    }
    assert IsProcRest(rest, c);
    MatchProcedureOfParts(dir + (w + rest), c, w, rest);
  }

  /** Text made of blanks up to a `(` does not read as blanks followed by
      a name. */
  lemma NoNameAfterBlanks(x: string, w: string, u: string, k: nat)
    requires k < |x| && AllBlank(x[..k]) && x[k] == '('
    requires AllBlank(w) && "oneway" + x == "oneway" + (w + u)
    ensures u == [] || !IsLower(u[0])
  {
    Parts("oneway", x);
    Parts("oneway", w + u);
    assert x == w + u;
    if |w| <= k && u != [] {
      assert u[0] == x[|w|];
      if |w| < k {
        assert x[..k][|w|] == x[|w|];
      }
    }
  }
}
