/**
 * What the parser guarantees, stated over the step functions of module
 * Parsing: the meaning of a parameter list, the rules of a procedure line
 * and of a type line, and what a whole parse can end in.
 */
module ParserProperties {
  import opened Wrappers
  import opened Definitions
  import opened Grammar
  import opened Parsing

  // ---- Parameter lists ----

  /** Every piece matches the parameter expression and no two pieces
      capture the same name. */
  ghost predicate Accepted(caps: seq<Option<ParamCapture>>)
  {
    (forall i :: 0 <= i < |caps| ==> caps[i].Some?) &&
    (forall i, j :: 0 <= i < j < |caps| && caps[i].Some? && caps[j].Some? ==>
       caps[i].value.name != caps[j].value.name)
  }

  /** The error for piece k when the pieces before it were accepted and it
      is not: it does not match, or it repeats an earlier name. Positions
      are 1-based. */
  function RejectionAt(pieces: seq<string>, caps: seq<Option<ParamCapture>>, k: nat): ParseError
    requires k < |pieces| == |caps|
  {
    match caps[k]
    case None => ParseError(0, InvalidParameter, AtPosition(k + 1, pieces[k]))
    case Some(c) => ParseError(0, DuplicateParameterIdentifier, AtPosition(k + 1, c.name))
  }

  lemma NamesOfIndex(ps: seq<Param>, x: string)
    ensures x in NamesOf(ps) <==> exists i :: 0 <= i < |ps| && ps[i].name == x
  {
    if x in NamesOf(ps) {
      var p :| p in ps && p.name == x;
      var i :| 0 <= i < |ps| && ps[i] == p;
    }
    if exists i :: 0 <= i < |ps| && ps[i].name == x {
      var i :| 0 <= i < |ps| && ps[i].name == x;
      assert ps[i] in ps;
    }
  }

  /** One more piece on a list that parses: that piece matches and its name
      is new. */
  lemma ParamsFromOkStep(pieces: seq<string>, caps: seq<Option<ParamCapture>>)
    requires |caps| == |pieces|
    requires pieces != [] && ParamsFrom(pieces, caps).Ok?
    ensures var k := |pieces| - 1;
      ParamsFrom(pieces[..k], caps[..k]).Ok? && caps[k].Some? &&
      caps[k].value.name !in NamesOf(ParamsFrom(pieces[..k], caps[..k]).value) &&
      ParamsFrom(pieces, caps).value == ParamsFrom(pieces[..k], caps[..k]).value + [ParamOf(caps[k].value)]
  {
  }

  /** A list that parses holds one parameter per piece, in order. */
  lemma {:induction false} ParamsFromValues(pieces: seq<string>, caps: seq<Option<ParamCapture>>)
    requires |caps| == |pieces|
    requires ParamsFrom(pieces, caps).Ok?
    ensures forall i :: 0 <= i < |pieces| ==>
      caps[i].Some? && ParamsFrom(pieces, caps).value[i] == ParamOf(caps[i].value)
    decreases |pieces|
  {
    if pieces != [] {
      var k := |pieces| - 1;
      ParamsFromOkStep(pieces, caps);
      ParamsFromValues(pieces[..k], caps[..k]);
    }
  }

  /** A list that parses is accepted. */
  lemma {:induction false} ParamsFromOkAccepted(pieces: seq<string>, caps: seq<Option<ParamCapture>>)
    requires |caps| == |pieces|
    requires ParamsFrom(pieces, caps).Ok?
    ensures Accepted(caps)
    decreases |pieces|
  {
    if pieces != [] {
      var k := |pieces| - 1;
      ParamsFromOkStep(pieces, caps);
      var ps := ParamsFrom(pieces[..k], caps[..k]).value;
      ParamsFromOkAccepted(pieces[..k], caps[..k]);
      ParamsFromValues(pieces[..k], caps[..k]);
      var c := caps[k].value;
      forall i | 0 <= i < k ensures caps[i].value.name != c.name {
        assert ps[i].name == caps[i].value.name;
        NamesOfIndex(ps, c.name);
      }
    }
  }

  /** An accepted list parses. */
  lemma {:induction false} AcceptedParamsFromOk(pieces: seq<string>, caps: seq<Option<ParamCapture>>)
    requires |caps| == |pieces|
    requires Accepted(caps)
    ensures ParamsFrom(pieces, caps).Ok?
    decreases |pieces|
  {
    if pieces != [] {
      var k := |pieces| - 1;
      assert Accepted(caps[..k]);
      AcceptedParamsFromOk(pieces[..k], caps[..k]);
      var ps := ParamsFrom(pieces[..k], caps[..k]).value;
      ParamsFromValues(pieces[..k], caps[..k]);
      var c := caps[k].value;
      forall i | 0 <= i < |ps| ensures ps[i].name != c.name {
        assert ps[i].name == caps[i].value.name;
      }
      NamesOfIndex(ps, c.name);
    }
  }

  /** A list that fails, fails at its first piece that is not accepted. */
  lemma {:induction false} ParamsFromErrAt(pieces: seq<string>, caps: seq<Option<ParamCapture>>)
    requires |caps| == |pieces|
    requires ParamsFrom(pieces, caps).Err?
    ensures (exists k :: 0 <= k < |pieces| && Accepted(caps[..k]) && !Accepted(caps[..k + 1]) &&
               ParamsFrom(pieces, caps).error == RejectionAt(pieces, caps, k))
    decreases |pieces|
  {
    var k := |pieces| - 1;
    assert caps[..k + 1] == caps;
    if ParamsFrom(pieces[..k], caps[..k]).Err? {
      ParamsFromErrAt(pieces[..k], caps[..k]);
      var j :| 0 <= j < k && Accepted(caps[..k][..j]) && !Accepted(caps[..k][..j + 1]) &&
        ParamsFrom(pieces[..k], caps[..k]).error == RejectionAt(pieces[..k], caps[..k], j);
      assert caps[..k][..j] == caps[..j] && caps[..k][..j + 1] == caps[..j + 1];
    } else {
      ParamsFromOkAccepted(pieces[..k], caps[..k]);
      if Accepted(caps) {
        AcceptedParamsFromOk(pieces, caps);
      }
    }
  }

  /** A parameter list succeeds exactly when every piece is accepted, and
      then holds one parameter per piece, in order, typed by its builtin;
      otherwise the error names the first piece that is not accepted. */
  lemma ParamsFromMeaning(pieces: seq<string>, caps: seq<Option<ParamCapture>>)
    requires |caps| == |pieces|
    ensures ParamsFrom(pieces, caps).Ok? <==> Accepted(caps)
    ensures ParamsFrom(pieces, caps).Ok? ==>
      forall i :: 0 <= i < |pieces| ==> ParamsFrom(pieces, caps).value[i] == ParamOf(caps[i].value)
    ensures ParamsFrom(pieces, caps).Err? ==>
      exists k :: 0 <= k < |pieces| && Accepted(caps[..k]) && !Accepted(caps[..k + 1]) &&
        ParamsFrom(pieces, caps).error == RejectionAt(pieces, caps, k)
  {
    if ParamsFrom(pieces, caps).Ok? {
      ParamsFromOkAccepted(pieces, caps);
      ParamsFromValues(pieces, caps);
    } else {
      ParamsFromErrAt(pieces, caps);
      if Accepted(caps) {
        AcceptedParamsFromOk(pieces, caps);
      }
    }
  }


  /** Every capture names an identifier and one of the parameter type
      names. */
  ghost predicate CapturesWellFormed(caps: seq<Option<ParamCapture>>)
  {
    forall i :: 0 <= i < |caps| && caps[i].Some? ==>
      IsIdentifier(caps[i].value.name) && caps[i].value.typeName in ParamTypeNames
  }

  lemma CapturesOfWellFormed(pieces: seq<string>)
    ensures CapturesWellFormed(CapturesOf(pieces))
  {
    CapturesOfAll(pieces);
  }

  lemma CapturesOfAll(pieces: seq<string>)
    ensures forall i :: 0 <= i < |pieces| ==> CapturesOf(pieces)[i] == FindParam(pieces[i])
  {
    forall i | 0 <= i < |pieces| ensures CapturesOf(pieces)[i] == FindParam(pieces[i]) {
      CapturesOfAt(pieces, i);
    }
  }

  /** No two parameters of a list share a name. */
  ghost predicate DistinctNames(ps: seq<Param>)
  {
    forall i, j :: 0 <= i < j < |ps| ==> ps[i].name != ps[j].name
  }

  /** Every parameter is named by an identifier and typed by the builtin of
      a parameter type name. */
  ghost predicate BuiltinTyped(ps: seq<Param>)
  {
    forall i :: 0 <= i < |ps| ==>
      IsIdentifier(ps[i].name) && ps[i].paramType.name in ParamTypeNames &&
      ps[i].paramType == BuiltinType(ps[i].paramType.name)
  }

  lemma ParamsFromWellFormed(pieces: seq<string>, caps: seq<Option<ParamCapture>>)
    requires |caps| == |pieces| && CapturesWellFormed(caps)
    requires ParamsFrom(pieces, caps).Ok?
    ensures DistinctNames(ParamsFrom(pieces, caps).value)
    ensures BuiltinTyped(ParamsFrom(pieces, caps).value)
  {
    ParamsFromOkAccepted(pieces, caps);
    ParamsFromValues(pieces, caps);
    var ps := ParamsFrom(pieces, caps).value;
    forall i, j | 0 <= i < j < |ps| ensures ps[i].name != ps[j].name {
      assert ps[i].name == caps[i].value.name && ps[j].name == caps[j].value.name;
    }
  }

  /** Every piece of a group matches the parameter expression and no two
      pieces capture the same name. */
  ghost predicate PiecesAccepted(pieces: seq<string>)
  {
    (forall i :: 0 <= i < |pieces| ==> FindParam(pieces[i]).Some?) &&
    (forall i, j :: 0 <= i < j < |pieces| && FindParam(pieces[i]).Some? && FindParam(pieces[j]).Some? ==>
       FindParam(pieces[i]).value.name != FindParam(pieces[j]).value.name)
  }

  /** A parameter group `( ... )` parses exactly when every comma-separated
      piece between its parentheses is accepted; it then holds one
      parameter per piece, in order, named by the piece's identifier and
      typed by the builtin of its type name, and no two share a name. */
  lemma ParamsSpecMeaning(text: string)
    requires |text| >= 3
    ensures ParamsSpec(text).Ok? <==> PiecesAccepted(ParamPieces(text))
    ensures ParamsSpec(text).Ok? ==>
      var pieces := ParamPieces(text);
      |ParamsSpec(text).value| == |pieces| &&
      (forall i :: 0 <= i < |pieces| ==> ParamsSpec(text).value[i] == ParamOf(FindParam(pieces[i]).value)) &&
      DistinctNames(ParamsSpec(text).value) && BuiltinTyped(ParamsSpec(text).value)
  {
    var pieces := ParamPieces(text);
    var caps := CapturesOf(pieces);
    assert ParamsSpec(text) == ParamsFrom(pieces, caps);
    ParamsFromMeaning(pieces, caps);
    AcceptedCaptures(pieces);
    if ParamsFrom(pieces, caps).Ok? {
      CapturesOfAll(pieces);
      CapturesOfWellFormed(pieces);
      ParamsFromWellFormed(pieces, caps);
    }
  }

  lemma AcceptedCaptures(pieces: seq<string>)
    ensures Accepted(CapturesOf(pieces)) <==> PiecesAccepted(pieces)
  {
    CapturesOfAll(pieces);
  }

  /** What any parameter text yields: distinct identifiers, builtin types. */
  lemma ParamsSpecWellFormed(text: string)
    ensures ParamsSpec(text).Ok? ==> DistinctNames(ParamsSpec(text).value) && BuiltinTyped(ParamsSpec(text).value)
  {
    if |text| >= 3 {
      var pieces := ParamPieces(text);
      var caps := CapturesOf(pieces);
      assert ParamsSpec(text) == ParamsFrom(pieces, caps);
      CapturesOfWellFormed(pieces);
      if ParamsFrom(pieces, caps).Ok? {
        ParamsFromWellFormed(pieces, caps);
      }
    }
  }

  /** A parameter list fails only with a parameter error, and carries no
      line number. */
  lemma ParamsSpecErrors(text: string)
    ensures ParamsSpec(text).Err? ==>
      ParamsSpec(text).error.line == 0 &&
      (ParamsSpec(text).error.kind == InvalidParameter || ParamsSpec(text).error.kind == DuplicateParameterIdentifier)
  {
    if |text| >= 3 {
      var pieces := ParamPieces(text);
      ParamsFromMeaning(pieces, CapturesOf(pieces));
    }
  }

  /** A group with something between its parentheses holds at least one
      parameter when it parses. */
  lemma ParamsSpecNonEmpty(text: string)
    requires |text| >= 3
    ensures ParamsSpec(text).Ok? ==> |ParamsSpec(text).value| >= 1
  {
  }

  /** Inside a procedure line every piece but the first is a well-formed
      parameter, so the only `invalid parameter` a group can produce is the
      empty first piece of a group such as `(,a int)`. */
  lemma {:induction false} GroupParamError(g: string)
    requires IsParamGroup(g)
    ensures ParamsSpec(g).Err? && ParamsSpec(g).error.kind == InvalidParameter ==>
      ParamsSpec(g).error == ParseError(0, InvalidParameter, AtPosition(1, ""))
  {
    if |g| >= 3 && ParamsSpec(g).Err? {
      var pieces := ParamPieces(g);
      var caps := CapturesOf(pieces);
      ParamsFromMeaning(pieces, caps);
      var k :| 0 <= k < |pieces| && Accepted(caps[..k]) && !Accepted(caps[..k + 1]) &&
        ParamsFrom(pieces, caps).error == RejectionAt(pieces, caps, k);
      if caps[k].None? {
        CapturesOfAt(pieces, k);
        if pieces[k] != "" || k > 0 {
          FindParamOfParamText(pieces[k]);
        }
      }
    }
  }

  /** The builtin the parser's type switch returns is the table entry for
      that name, and the one a captured parameter is given. */
  lemma ParamTypeForIsTable(tipe: string)
    requires tipe in ParamTypeNames
    ensures tipe in BuiltinTypes && ParamTypeFor(tipe) == Some(BuiltinTypes[tipe])
  {
    BuiltinTableShape();
    assert tipe in BuiltinNames by {
      assert tipe in BuiltinNameList;
    }
  }

  /** The parameter type names are the builtin names without `bool`. */
  lemma ParamTypesAreBuiltinsButBool()
    ensures ParamTypeNames == BuiltinNames - {"bool"}
  {
    assert BuiltinNameList == ["int", "int8", "int16", "int32", "int64",
      "uint", "uint8", "uint16", "uint32", "uint64", "string"] + ["bool"];
    assert BuiltinNames == set n | n in BuiltinNameList;
  }

  // ---- Procedure lines ----

  function Other(d: ProcedureType): ProcedureType
  {
    if d == ServerProcedure then ClientProcedure else ServerProcedure
  }

  /** The return group `()` is the only return text that parses to no
      parameters. */
  lemma EmptyRetsMeansEmptyGroup(rets: string)
    requires rets == "" || IsParamGroup(rets)
    ensures ParamsSpec(rets).Ok? && |ParamsSpec(rets).value| == 0 && |rets| > 0 <==> rets == "()"
  {
    if |rets| == 2 {
      assert rets == [rets[0], rets[1]];
    }
    if |rets| >= 3 {
      ParamsSpecNonEmpty(rets);
    }
  }

  /** The errors of a matched procedure line, in the order the parser
      checks: a oneway procedure may not have a return group (before any
      parameter is read); a two-way procedure may not have the empty return
      group `()`; a name already in its direction's table is a duplicate,
      and that is the only error that carries the line number. */
  lemma CaptureErrors(s: Service, m: ProcCapture, ln: nat)
    requires m.rets == "" || IsParamGroup(m.rets)
    ensures m.oneway && m.rets != "" ==>
      ProcedureOfCapture(s, m, ln) == Err(ParseError(0, UnexpectedReturnParameters, NoDetail))
    ensures ProcedureOfCapture(s, m, ln) == Err(ParseError(0, EmptyReturnGroup, NoDetail)) <==>
      !m.oneway && ParamsSpec(m.args).Ok? && m.rets == "()"
    ensures ProcedureOfCapture(s, m, ln).Err? && ProcedureOfCapture(s, m, ln).error.kind == DuplicateProcedureIdentifier ==>
      m.name in ProceduresOf(s, DirectionOf(m.direction)) &&
      ProcedureOfCapture(s, m, ln).error == ParseError(ln, DuplicateProcedureIdentifier, Quoted(m.name))
    ensures ProcedureOfCapture(s, m, ln).Err? && ProcedureOfCapture(s, m, ln).error.kind != DuplicateProcedureIdentifier ==>
      ProcedureOfCapture(s, m, ln).error.line == 0
  {
    EmptyRetsMeansEmptyGroup(m.rets);
    ParamsSpecErrors(m.args);
    ParamsSpecErrors(m.rets);
  }

  /** A matched procedure line is accepted exactly when it passes every
      check; it then adds one procedure, under its name, to the table of
      its direction, and changes nothing else. */
  lemma CaptureSuccess(s: Service, m: ProcCapture, ln: nat)
    requires m.rets == "" || IsParamGroup(m.rets)
    ensures ProcedureOfCapture(s, m, ln).Ok? <==>
      !(m.oneway && m.rets != "") && ParamsSpec(m.args).Ok? && ParamsSpec(m.rets).Ok? &&
      m.rets != "()" && m.name !in ProceduresOf(s, DirectionOf(m.direction))
    ensures ProcedureOfCapture(s, m, ln).Ok? ==>
      var d := DirectionOf(m.direction);
      var s' := ProcedureOfCapture(s, m, ln).value;
      var p := Procedure(m.name, d, m.oneway, ParamsSpec(m.args).value, ParamsSpec(m.rets).value, Source(ln));
      ProceduresOf(s', d) == ProceduresOf(s, d)[m.name := p] &&
      |ProceduresOf(s', d)| == |ProceduresOf(s, d)| + 1 &&
      ProceduresOf(s', Other(d)) == ProceduresOf(s, Other(d)) &&
      s'.name == s.name && s'.types == s.types &&
      (m.rets == "" ==> p.rets == [])
  {
    EmptyRetsMeansEmptyGroup(m.rets);
    if ProcedureOfCapture(s, m, ln).Ok? {
      var p := Procedure(m.name, DirectionOf(m.direction), m.oneway, ParamsSpec(m.args).value,
                         ParamsSpec(m.rets).value, Source(ln));
      assert ProcedureOfCapture(s, m, ln) == Ok(AddProcedure(s, p));
      AddProcedureEffect(s, p);
    }
  }

  /** Adding a procedure touches the table of its direction only. */
  lemma AddProcedureEffect(s: Service, p: Procedure)
    ensures var s' := AddProcedure(s, p);
      ProceduresOf(s', p.procType) == ProceduresOf(s, p.procType)[p.name := p] &&
      ProceduresOf(s', Other(p.procType)) == ProceduresOf(s, Other(p.procType)) &&
      s'.name == s.name && s'.types == s.types &&
      (p.name !in ProceduresOf(s, p.procType) ==>
         |ProceduresOf(s', p.procType)| == |ProceduresOf(s, p.procType)| + 1)
  {
  }

  /** The error kinds a procedure line can end in. */
  predicate ProcedureErrorKind(k: ErrorKind)
  {
    k == InvalidProcDefinition || k == UnexpectedReturnParameters || k == InvalidParameter ||
    k == DuplicateParameterIdentifier || k == EmptyReturnGroup || k == DuplicateProcedureIdentifier
  }

  /** The errors a matched procedure line can end in; only a duplicate
      name carries the line number. */
  lemma CaptureErrorKinds(s: Service, m: ProcCapture, ln: nat)
    ensures ProcedureOfCapture(s, m, ln).Err? ==>
      ProcedureErrorKind(ProcedureOfCapture(s, m, ln).error.kind) &&
      ProcedureOfCapture(s, m, ln).error.kind != InvalidProcDefinition &&
      (ProcedureOfCapture(s, m, ln).error.line != 0 ==> ProcedureOfCapture(s, m, ln).error.line == ln)
  {
    ParamsSpecErrors(m.args);
    ParamsSpecErrors(m.rets);
  }

  /** A procedure line that does not match the procedure expression is an
      `invalid procedure definition`; every other error of the line comes
      from one of the checks on the match. */
  lemma ProcedureStepErrors(s: Service, line: string, ln: nat)
    ensures MatchProcedure(line).None? ==>
      ProcedureStep(s, line, ln) == Err(ParseError(0, InvalidProcDefinition, NoDetail))
    ensures ProcedureStep(s, line, ln).Err? ==>
      ProcedureErrorKind(ProcedureStep(s, line, ln).error.kind) &&
      (ProcedureStep(s, line, ln).error.line != 0 ==> ProcedureStep(s, line, ln).error.line == ln)
  {
    match MatchProcedure(line)
    case None =>
    case Some(m) =>
      assert ProcedureStep(s, line, ln) == ProcedureOfCapture(s, m, ln);
      CaptureErrorKinds(s, m, ln);
  }

  // ---- Type lines ----

  /** The three forms of a type expression exclude each other. */
  lemma TypeFormsExclusive(e: string)
    ensures IsSimpleTypeText(e) ==> !IsSliceTypeText(e) && MatchMapType(e).None?
    ensures IsSliceTypeText(e) ==> MatchMapType(e).None?
  {
    if |e| >= 4 && IsSimpleTypeText(e) {
      assert IsIdentChar(e[3]);
      assert e[..4][3] == e[3];
    }
    if |e| >= 2 && IsSliceTypeText(e) {
      assert e[..2][0] == e[0];
    }
    if |e| >= 4 && MatchMapType(e).Some? {
      assert e[..4][0] == e[0];
    }
  }

  /** No slice or map expression names a builtin: such a text resolves only
      when the service has declared a type under that very text. */
  lemma CompositeTextNotBuiltin(s: Service, e: string)
    requires IsSliceTypeText(e) || MatchMapType(e).Some?
    ensures e !in BuiltinTypes
    ensures LookupType(s, e).Some? <==> e in s.types
  {
    assert e[0] == '[' || e[0] == 'm';
    assert e[..2][0] == e[0];
    if e[0] == 'm' {
      assert e[..4][3] == e[3];
    }
  }

  /** The shape of a type line: three whitespace-separated fields or
      `invalid type definition`; a third field of none of the three forms
      panics; every rejection is an `invalid type definition` without a
      line number. */
  lemma TypeDefShape(s: Service, line: string)
    ensures TypeDefStep(s, line) == Rejected(ParseError(0, InvalidTypeDefinition, NoDetail)) <==>
      |Fields(line)| != 3
    ensures TypeDefStep(s, line).Panics? <==>
      |Fields(line)| == 3 && !IsSimpleTypeText(Fields(line)[2]) &&
      !IsSliceTypeText(Fields(line)[2]) && MatchMapType(Fields(line)[2]).None?
    ensures TypeDefStep(s, line).Rejected? ==>
      TypeDefStep(s, line).error.kind == InvalidTypeDefinition && TypeDefStep(s, line).error.line == 0
  {
  }

  /** `type T name`: rejected as an unknown type exactly when the name does
      not resolve; otherwise T refers to what it resolves to. */
  lemma TypeDefSimple(s: Service, line: string)
    requires |Fields(line)| == 3 && IsSimpleTypeText(Fields(line)[2])
    ensures var f := Fields(line);
      TypeDefStep(s, line).Rejected? <==> LookupType(s, f[2]).None?
    ensures var f := Fields(line);
      TypeDefStep(s, line).Rejected? ==>
        TypeDefStep(s, line).error == ParseError(0, InvalidTypeDefinition, UnknownType("type", f[2]))
    ensures var f := Fields(line);
      TypeDefStep(s, line).Defined? ==>
        f[1] in TypeDefStep(s, line).service.types &&
        TypeDefStep(s, line).service.types[f[1]].simpleType == LookupType(s, f[2])
  {
    TypeFormsExclusive(Fields(line)[2]);
  }

  /** `type T []name`: the whole text `[]name` is resolved, so it is
      rejected unless the service has declared a type under that text,
      even when `name` is a builtin. */
  lemma TypeDefSlice(s: Service, line: string)
    requires |Fields(line)| == 3 && IsSliceTypeText(Fields(line)[2])
    ensures var f := Fields(line);
      TypeDefStep(s, line).Rejected? <==> f[2] !in s.types
    ensures var f := Fields(line);
      TypeDefStep(s, line).Rejected? ==>
        TypeDefStep(s, line).error == ParseError(0, InvalidTypeDefinition, UnknownType("element type", f[2]))
    ensures var f := Fields(line);
      TypeDefStep(s, line).Defined? ==>
        f[1] in TypeDefStep(s, line).service.types && f[2] in s.types &&
        TypeDefStep(s, line).service.types[f[1]].sliceElementType == Some(s.types[f[2]])
  {
    var e := Fields(line)[2];
    TypeFormsExclusive(e);
    CompositeTextNotBuiltin(s, e);
  }

  /** `type T map[k]v`: the whole text is resolved as the key type and `k`
      as the value type; `v` is never looked at. */
  lemma TypeDefMap(s: Service, line: string)
    requires |Fields(line)| == 3 && MatchMapType(Fields(line)[2]).Some?
    ensures var f := Fields(line); var k := MatchMapType(f[2]).value.key;
      TypeDefStep(s, line).Rejected? <==> f[2] !in s.types || LookupType(s, k).None?
    ensures var f := Fields(line);
      f[2] !in s.types ==>
        TypeDefStep(s, line) == Rejected(ParseError(0, InvalidTypeDefinition, UnknownType("map key type", f[2])))
    ensures var f := Fields(line); var k := MatchMapType(f[2]).value.key;
      f[2] in s.types && LookupType(s, k).None? ==>
        TypeDefStep(s, line) == Rejected(ParseError(0, InvalidTypeDefinition, UnknownType("map value type", k)))
    ensures var f := Fields(line); var k := MatchMapType(f[2]).value.key;
      TypeDefStep(s, line).Defined? ==>
        f[1] in TypeDefStep(s, line).service.types && f[2] in s.types &&
        TypeDefStep(s, line).service.types[f[1]].mapKeyType == Some(s.types[f[2]]) &&
        TypeDefStep(s, line).service.types[f[1]].mapValueType == LookupType(s, k)
  {
    var e := Fields(line)[2];
    TypeFormsExclusive(e);
    CompositeTextNotBuiltin(s, e);
    assert !IsSliceTypeText(e) by {
      assert e[..2][0] == e[0] && e[..4][0] == e[0];
    }
  }

  /** A declared type: only its name and one kind of reference are set. */
  ghost predicate DeclaredShape(t: Type)
  {
    t.category == Unset && t.source == Source(0) && t.structFields == [] &&
    ((t.simpleType.Some? && t.sliceElementType.None? && t.mapKeyType.None? && t.mapValueType.None?) ||
     (t.simpleType.None? && t.sliceElementType.Some? && t.mapKeyType.None? && t.mapValueType.None?) ||
     (t.simpleType.None? && t.sliceElementType.None? && t.mapKeyType.Some? && t.mapValueType.Some?))
  }

  /** A declaration stores the new type under the line's second field,
      replacing any earlier entry of that name, and changes nothing else. */
  lemma TypeDefStored(s: Service, line: string)
    requires TypeDefStep(s, line).Defined?
    ensures var f := Fields(line); var s' := TypeDefStep(s, line).service;
      |f| == 3 && s'.types.Keys == s.types.Keys + {f[1]} &&
      s'.types[f[1]].name == f[1] && DeclaredShape(s'.types[f[1]]) &&
      (forall n :: n in s.types && n != f[1] ==> s'.types[n] == s.types[n]) &&
      s'.name == s.name && s'.serverProcedures == s.serverProcedures &&
      s'.clientProcedures == s.clientProcedures
  {
    var f := Fields(line);
    var e := f[2];
    TypeFormsExclusive(e);
    var t := NewType(f[1]);
    if IsSimpleTypeText(e) {
      t := t.(simpleType := LookupType(s, e));
    } else if IsSliceTypeText(e) {
      t := t.(sliceElementType := LookupType(s, e));
    } else {
      t := t.(mapKeyType := LookupType(s, e), mapValueType := LookupType(s, MatchMapType(e).value.key));
    }
    assert TypeDefStep(s, line).service == Declare(s, t);
    DeclareStores(s, t);
  }

  lemma DeclareStores(s: Service, t: Type)
    ensures var s' := Declare(s, t);
      s'.types.Keys == s.types.Keys + {t.name} && s'.types[t.name] == t &&
      (forall n :: n in s.types && n != t.name ==> s'.types[n] == s.types[n]) &&
      s'.name == s.name && s'.serverProcedures == s.serverProcedures &&
      s'.clientProcedures == s.clientProcedures
  {
  }

  // ---- Whole parses ----

  /** A procedure as the parser builds it: an identifier, its direction,
      no returns when oneway, well-formed parameter lists, and the line it
      was declared on, after the name line. */
  ghost predicate WellFormedProcedure(p: Procedure, dir: ProcedureType)
  {
    IsIdentifier(p.name) && p.procType == dir &&
    (p.oneway ==> p.rets == []) &&
    DistinctNames(p.args) && DistinctNames(p.rets) &&
    BuiltinTyped(p.args) && BuiltinTyped(p.rets) &&
    p.source.lineNumber >= 2
  }

  /** The invariant of every procedure table of a parsed service. */
  ghost predicate WellFormedProcedures(procs: map<string, Procedure>, dir: ProcedureType)
  {
    forall n | n in procs :: procs[n].name == n && WellFormedProcedure(procs[n], dir)
  }

  ghost predicate WellFormed(s: Service)
  {
    WellFormedProcedures(s.serverProcedures, ServerProcedure) &&
    WellFormedProcedures(s.clientProcedures, ClientProcedure) &&
    forall n | n in s.types :: s.types[n].name == n && DeclaredShape(s.types[n])
  }

  lemma CaptureKeepsWellFormed(s: Service, m: ProcCapture, ln: nat)
    requires WellFormed(s) && ln >= 2
    requires IsIdentifier(m.name) && (m.rets == "" || IsParamGroup(m.rets))
    ensures ProcedureOfCapture(s, m, ln).Ok? ==>
      WellFormed(ProcedureOfCapture(s, m, ln).value) && ProcedureOfCapture(s, m, ln).value.name == s.name
  {
    if ProcedureOfCapture(s, m, ln).Ok? {
      var args := ParamsSpec(m.args).value;
      var rets := ParamsSpec(m.rets).value;
      ParamsSpecWellFormed(m.args);
      ParamsSpecWellFormed(m.rets);
      CaptureSuccess(s, m, ln);
      var d := DirectionOf(m.direction);
      var p := Procedure(m.name, d, m.oneway, args, rets, Source(ln));
      assert ProcedureOfCapture(s, m, ln) == Ok(AddProcedure(s, p));
      assert WellFormedProcedure(p, d);
      AddProcedureEffect(s, p);
      assert WellFormedProcedures(ProceduresOf(s, d)[m.name := p], d);
    }
  }

  /** An accepted procedure line keeps the service well formed. */
  lemma ProcedureStepKeepsWellFormed(s: Service, line: string, ln: nat)
    requires WellFormed(s) && ln >= 2
    ensures ProcedureStep(s, line, ln).Ok? ==>
      WellFormed(ProcedureStep(s, line, ln).value) && ProcedureStep(s, line, ln).value.name == s.name
  {
    match MatchProcedure(line)
    case None =>
    case Some(m) =>
      MatchProcedureShape(line);
      assert ProcedureStep(s, line, ln) == ProcedureOfCapture(s, m, ln);
      CaptureKeepsWellFormed(s, m, ln);
  }

  /** An accepted type line keeps the service well formed. */
  lemma TypeDefStepKeepsWellFormed(s: Service, line: string)
    requires WellFormed(s)
    ensures TypeDefStep(s, line).Defined? ==>
      WellFormed(TypeDefStep(s, line).service) && TypeDefStep(s, line).service.name == s.name
  {
    if TypeDefStep(s, line).Defined? {
      TypeDefStored(s, line);
    }
  }

  /** Procedure and type lines are the only ones the body loop consumes. */
  predicate Recognised(line: string) { IsProcedureLine(line) || IsTypeLine(line) }

  /** The body loop succeeds only at a clean end of input reached through
      recognised lines, and keeps the service well formed and its name. */
  lemma {:induction false} LoopParsed(s: Service, input: Input, consumed: nat,
                                      procedure: (Service, string, nat) -> Result<Service, ParseError>,
                                      typeDef: (Service, string) -> TypeDefResult)
    requires 1 <= consumed <= |input.lines| && WellFormed(s)
    requires forall t, line, ln :: WellFormed(t) && ln >= 2 && procedure(t, line, ln).Ok? ==>
      WellFormed(procedure(t, line, ln).value) && procedure(t, line, ln).value.name == t.name
    requires forall t, line :: WellFormed(t) && typeDef(t, line).Defined? ==>
      WellFormed(typeDef(t, line).service) && typeDef(t, line).service.name == t.name
    ensures var out := Loop(s, input, consumed, procedure, typeDef);
      out.Parsed? ==>
        input.failure.None? && WellFormed(out.service) && out.service.name == s.name &&
        forall i :: consumed <= i < |input.lines| ==> Recognised(input.lines[i])
    decreases |input.lines| - consumed
  {
    if consumed < |input.lines| {
      var line := input.lines[consumed];
      if IsProcedureLine(line) {
        var r := procedure(s, line, consumed + 1);
        if r.Ok? {
          LoopParsed(r.value, input, consumed + 1, procedure, typeDef);
        }
      } else if IsTypeLine(line) {
        var r := typeDef(s, line);
        if r.Defined? {
          LoopParsed(r.service, input, consumed + 1, procedure, typeDef);
        } else if r.Rejected? {
          LoopParsed(s, input, consumed + 1, procedure, typeDef);
        }
      }
    }
  }

  lemma BodyParsed(s: Service, input: Input, consumed: nat)
    requires 1 <= consumed <= |input.lines| && WellFormed(s)
    ensures var out := Body(s, input, consumed);
      out.Parsed? ==>
        input.failure.None? && WellFormed(out.service) && out.service.name == s.name &&
        forall i :: consumed <= i < |input.lines| ==> Recognised(input.lines[i])
  {
    forall t, line, ln | WellFormed(t) && ln >= 2 && ProcedureStep(t, line, ln).Ok?
      ensures WellFormed(ProcedureStep(t, line, ln).value) && ProcedureStep(t, line, ln).value.name == t.name
    {
      ProcedureStepKeepsWellFormed(t, line, ln);
    }
    forall t, line | WellFormed(t) && TypeDefStep(t, line).Defined?
      ensures WellFormed(TypeDefStep(t, line).service) && TypeDefStep(t, line).service.name == t.name
    {
      TypeDefStepKeepsWellFormed(t, line);
    }
    LoopParsed(s, input, consumed, ProcedureStep, TypeDefStep);
  }

  /** The loop stops on a failing reader only after recognised lines, with
      the reader's own message. */
  lemma {:induction false} LoopReadError(s: Service, input: Input, consumed: nat,
                                         procedure: (Service, string, nat) -> Result<Service, ParseError>,
                                         typeDef: (Service, string) -> TypeDefResult)
    requires consumed <= |input.lines|
    ensures var out := Loop(s, input, consumed, procedure, typeDef);
      out.Failed? && out.failure.ReadError? ==>
        input.failure == Some(out.failure.message) &&
        forall i :: consumed <= i < |input.lines| ==> Recognised(input.lines[i])
    decreases |input.lines| - consumed
  {
    if consumed < |input.lines| {
      var line := input.lines[consumed];
      if IsProcedureLine(line) {
        var r := procedure(s, line, consumed + 1);
        if r.Ok? {
          LoopReadError(r.value, input, consumed + 1, procedure, typeDef);
        }
      } else if IsTypeLine(line) {
        var r := typeDef(s, line);
        if r.Defined? {
          LoopReadError(r.service, input, consumed + 1, procedure, typeDef);
        } else if r.Rejected? {
          LoopReadError(s, input, consumed + 1, procedure, typeDef);
        }
      }
    }
  }

  /** The only syntax errors the loop ends with are those of procedure
      lines: a type line never makes it fail. */
  lemma {:induction false} LoopSyntaxErrors(s: Service, input: Input, consumed: nat,
                                            procedure: (Service, string, nat) -> Result<Service, ParseError>,
                                            typeDef: (Service, string) -> TypeDefResult)
    requires consumed <= |input.lines|
    requires forall t, line, ln :: procedure(t, line, ln).Err? ==> ProcedureErrorKind(procedure(t, line, ln).error.kind)
    ensures var out := Loop(s, input, consumed, procedure, typeDef);
      out.Failed? && out.failure.Syntax? ==> ProcedureErrorKind(out.failure.error.kind)
    decreases |input.lines| - consumed
  {
    if consumed < |input.lines| {
      var line := input.lines[consumed];
      if IsProcedureLine(line) {
        var r := procedure(s, line, consumed + 1);
        if r.Ok? {
          LoopSyntaxErrors(r.value, input, consumed + 1, procedure, typeDef);
        }
      } else if IsTypeLine(line) {
        var r := typeDef(s, line);
        if r.Defined? {
          LoopSyntaxErrors(r.service, input, consumed + 1, procedure, typeDef);
        } else if r.Rejected? {
          LoopSyntaxErrors(s, input, consumed + 1, procedure, typeDef);
        }
      }
    }
  }

  /** The loop spins on the first line it does not recognise. */
  lemma {:induction false} LoopDiverges(s: Service, input: Input, consumed: nat,
                                        procedure: (Service, string, nat) -> Result<Service, ParseError>,
                                        typeDef: (Service, string) -> TypeDefResult)
    requires consumed <= |input.lines|
    ensures var out := Loop(s, input, consumed, procedure, typeDef);
      out.Diverges? ==>
        consumed < out.line <= |input.lines| && !Recognised(input.lines[out.line - 1]) &&
        forall i :: consumed <= i < out.line - 1 ==> Recognised(input.lines[i])
    decreases |input.lines| - consumed
  {
    if consumed < |input.lines| {
      var line := input.lines[consumed];
      if IsProcedureLine(line) {
        var r := procedure(s, line, consumed + 1);
        if r.Ok? {
          LoopDiverges(r.value, input, consumed + 1, procedure, typeDef);
        }
      } else if IsTypeLine(line) {
        var r := typeDef(s, line);
        if r.Defined? {
          LoopDiverges(r.service, input, consumed + 1, procedure, typeDef);
        } else if r.Rejected? {
          LoopDiverges(s, input, consumed + 1, procedure, typeDef);
        }
      }
    }
  }

  /** What the parser's body loop can end in: success only at a clean end
      of input after recognised lines, with a well-formed service that kept
      its name; a reader failure after recognised lines; a syntax error of a
      procedure line, never of a type line; or a spin on the first line it
      does not recognise. */
  lemma BodyOutcomes(s: Service, input: Input, consumed: nat)
    requires 1 <= consumed <= |input.lines| && WellFormed(s)
    ensures var out := Body(s, input, consumed);
      out.Failed? && out.failure.ReadError? ==>
        input.failure == Some(out.failure.message) &&
        forall i :: consumed <= i < |input.lines| ==> Recognised(input.lines[i])
    ensures var out := Body(s, input, consumed);
      out.Failed? ==> out.failure.ReadError? || (out.failure.Syntax? && ProcedureErrorKind(out.failure.error.kind))
    ensures var out := Body(s, input, consumed);
      out.Diverges? ==>
        consumed < out.line <= |input.lines| && !Recognised(input.lines[out.line - 1]) &&
        forall i :: consumed <= i < out.line - 1 ==> Recognised(input.lines[i])
  {
    forall t, line, ln | ProcedureStep(t, line, ln).Err?
      ensures ProcedureErrorKind(ProcedureStep(t, line, ln).error.kind)
    {
      ProcedureStepErrors(t, line, ln);
    }
    LoopReadError(s, input, consumed, ProcedureStep, TypeDefStep);
    LoopSyntaxErrors(s, input, consumed, ProcedureStep, TypeDefStep);
    LoopDiverges(s, input, consumed, ProcedureStep, TypeDefStep);
    LoopNeverAlreadyUsed(s, input, consumed, ProcedureStep, TypeDefStep);
  }

  lemma {:induction false} LoopNeverAlreadyUsed(s: Service, input: Input, consumed: nat,
                                                procedure: (Service, string, nat) -> Result<Service, ParseError>,
                                                typeDef: (Service, string) -> TypeDefResult)
    requires consumed <= |input.lines|
    ensures var out := Loop(s, input, consumed, procedure, typeDef);
      out.Failed? ==> out.failure.ReadError? || out.failure.Syntax?
    decreases |input.lines| - consumed
  {
    if consumed < |input.lines| {
      var line := input.lines[consumed];
      if IsProcedureLine(line) {
        var r := procedure(s, line, consumed + 1);
        if r.Ok? {
          LoopNeverAlreadyUsed(r.value, input, consumed + 1, procedure, typeDef);
        }
      } else if IsTypeLine(line) {
        var r := typeDef(s, line);
        if r.Defined? {
          LoopNeverAlreadyUsed(r.service, input, consumed + 1, procedure, typeDef);
        } else if r.Rejected? {
          LoopNeverAlreadyUsed(s, input, consumed + 1, procedure, typeDef);
        }
      }
    }
  }

  /** The name line: end of input there is `unexpected EOF` on line 0, a
      reader failure is a `reader error` on line 0, and any line that is not
      `name`, blanks and an identifier is `invalid name definition` on
      line 1. */
  lemma ParseNameErrors(input: Input)
    ensures |input.lines| == 0 && input.failure.None? ==>
      ParseSpec(input) == Failed(Syntax(ParseError(0, UnexpectedEOF, NoDetail)))
    ensures |input.lines| == 0 && input.failure.Some? ==>
      ParseSpec(input) == Failed(Syntax(ParseError(0, ReaderError, ReaderMessage(input.failure.value))))
    ensures |input.lines| > 0 && MatchName(input.lines[0]).None? ==>
      ParseSpec(input) == Failed(Syntax(ParseError(1, InvalidNameDefinition, NoDetail)))
  {
  }

  /** A parse succeeds only on a clean end of input after a name line and
      procedure and type lines only; the service carries the identifier of
      the name line as its name and is well formed. */
  lemma ParseSucceeds(input: Input)
    ensures ParseSpec(input).Parsed? ==>
      var s := ParseSpec(input).service;
      |input.lines| > 0 && input.failure.None? && WellFormed(s) && IsIdentifier(s.name) &&
      (exists w :: |w| > 0 && AllBlank(w) && input.lines[0] == "name" + w + s.name) &&
      forall i :: 1 <= i < |input.lines| ==> Recognised(input.lines[i])
  {
    if |input.lines| > 0 && MatchName(input.lines[0]).Some? {
      var name := MatchName(input.lines[0]).value;
      var s := NewService().(name := name);
      assert ParseSpec(input) == Body(s, input, 1);
      assert WellFormed(s);
      BodyParsed(s, input, 1);
      MatchNameIff(input.lines[0], name);
    }
  }

  /** A parse never fails because of a type line, and it spins on the
      first line after the name that is neither a procedure nor a type
      line. */
  lemma ParseOutcomes(input: Input)
    ensures ParseSpec(input).Failed? ==>
      ParseSpec(input).failure.ReadError? ||
      (ParseSpec(input).failure.Syntax? && ParseSpec(input).failure.error.kind != InvalidTypeDefinition)
    ensures ParseSpec(input).Diverges? ==>
      2 <= ParseSpec(input).line <= |input.lines| && !Recognised(input.lines[ParseSpec(input).line - 1])
  {
    if |input.lines| > 0 && MatchName(input.lines[0]).Some? {
      var s := NewService().(name := MatchName(input.lines[0]).value);
      assert ParseSpec(input) == Body(s, input, 1);
      assert WellFormed(s);
      BodyOutcomes(s, input, 1);
    }
  }

  /** A type line whose declaration is rejected is skipped: parsing goes on
      with the next line as if the line were absent. */
  lemma TypeErrorSkipped(s: Service, input: Input, consumed: nat)
    requires consumed < |input.lines|
    requires !IsProcedureLine(input.lines[consumed]) && IsTypeLine(input.lines[consumed])
    requires TypeDefStep(s, input.lines[consumed]).Rejected?
    ensures Body(s, input, consumed) == Body(s, input, consumed + 1)
  {
  }

  /** A procedure line that is rejected ends the parse with its error. */
  lemma ProcedureErrorAborts(s: Service, input: Input, consumed: nat)
    requires consumed < |input.lines| && IsProcedureLine(input.lines[consumed])
    requires ProcedureStep(s, input.lines[consumed], consumed + 1).Err?
    ensures Body(s, input, consumed) == Failed(Syntax(ProcedureStep(s, input.lines[consumed], consumed + 1).error))
  {
  }
}
