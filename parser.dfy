/**
 * The ango definition parser: a single-use Parser object that reads a
 * line-oriented service description and fills in a Service.
 *
 * The line reader behind the parser is given here as an Input: the lines it
 * hands out, in order, and how it ends (end of file, or a read failure).
 * Each step of the parser is a method of class Parser; each is proved
 * against a function of the same step (NameStep, ProcedureStep, ...), and
 * ParseSpec composes those functions into the outcome of a whole parse.
 */
module Parsing {
  import opened Wrappers
  import opened Definitions
  import opened Grammar

  // ---- Errors ----

  /** The kinds of ParseError, one per ParseErr* message. */
  datatype ErrorKind =
    | InvalidNameDefinition
    | InvalidProcDefinition
    | InvalidTypeDefinition
    | InvalidParameter
    | DuplicateProcedureIdentifier
    | DuplicateParameterIdentifier
    | UnexpectedReturnParameters
    | EmptyReturnGroup
    | UnexpectedEOF
    | ReaderError

  /** The message the source stores in ParseError.Type for each kind. */
  function KindText(k: ErrorKind): string
  {
    match k
    case InvalidNameDefinition => "invalid name definition"
    case InvalidProcDefinition => "invalid procedure definition"
    case InvalidTypeDefinition => "invalid type definition"
    case InvalidParameter => "invalid parameter definition (argument or return value)"
    case DuplicateProcedureIdentifier => "duplicate procedure identifier"
    case DuplicateParameterIdentifier => "duplicate parameter identifier (argument or return value)"
    case UnexpectedReturnParameters => "unexpected return parameters (oneway procedure?)"
    case EmptyReturnGroup => "empty return group"
    case UnexpectedEOF => "unexpected EOF"
    case ReaderError => "reader error"
  }

  /** The free-text detail of an error (ParseError.Extra), kept structured. */
  datatype Detail =
    | NoDetail
    | AtPosition(position: nat, text: string)
    | Quoted(name: string)
    | UnknownType(what: string, name: string)
    | ReaderMessage(message: string)

  function DigitChar(d: nat): char
    requires d < 10
  {
    "0123456789"[d]
  }

  function NatText(n: nat): string
    decreases n
  {
    if n < 10 then [DigitChar(n)] else NatText(n / 10) + [DigitChar(n % 10)]
  }

  /** The Extra string the source formats for each detail. */
  function ExtraText(d: Detail): string
  {
    match d
    case NoDetail => ""
    case AtPosition(p, t) => "at position " + NatText(p) + ": \"" + t + "\""
    case Quoted(n) => "\"" + n + "\""
    case UnknownType(what, n) => "unknown " + what + " `" + n + "`"
    case ReaderMessage(m) => m
  }

  /** Line 0 means the line number was not recorded. */
  datatype ParseError = ParseError(line: nat, kind: ErrorKind, extra: Detail)

  // ---- The line reader ----

  /** What the line reader delivers: its lines, then either end of file
      (failure == None) or a read error. */
  datatype Input = Input(lines: seq<string>, failure: Option<string>)

  datatype ReadResult = GotLine(line: string) | AtEOF | ReadFailed(message: string)

  /** What the reader yields once `consumed` lines have been handed out. */
  function ReadAt(input: Input, consumed: nat): ReadResult
  {
    if consumed < |input.lines| then GotLine(input.lines[consumed])
    else if input.failure.Some? then ReadFailed(input.failure.value)
    else AtEOF
  }

  /** The text a step works on when it reads without checking for errors. */
  function TextOf(r: ReadResult): string
  {
    if r.GotLine? then r.line else ""
  }

  // ---- Outcomes ----

  datatype Failure =
    | AlreadyUsed             // the parser was used before
    | Syntax(error: ParseError)
    | ReadError(message: string)

  /** The outcome of a parse. Diverges: the body loop peeks the given line
      for ever without consuming it. Panicked: a run-time panic. */
  datatype Outcome =
    | Parsed(service: Service)
    | Failed(failure: Failure)
    | Diverges(line: nat)
    | Panicked

  /** The result of one type declaration. */
  datatype TypeDefResult = Defined(service: Service) | Rejected(error: ParseError) | Panics

  // ---- Specification of each step ----

  /** The name line, read when `consumed` lines had been handed out. */
  function NameStep(r: ReadResult, consumed: nat): (res: Result<string, ParseError>)
    ensures res.Ok? <==> r.GotLine? && MatchName(r.line).Some?
    ensures res.Ok? ==> IsIdentifier(res.value)
  {
    match r
    case AtEOF => Err(ParseError(consumed, UnexpectedEOF, NoDetail))
    case ReadFailed(m) => Err(ParseError(consumed, ReaderError, ReaderMessage(m)))
    case GotLine(line) =>
      match MatchName(line)
      case None => Err(ParseError(consumed + 1, InvalidNameDefinition, NoDetail))
      case Some(id) => Ok(id)
  }

  /** The builtin a parameter type name is mapped to; None stands for the
      switch's panicking default. */
  function ParamTypeFor(tipe: string): (r: Option<Type>)
    ensures r.Some? <==> tipe in ParamTypeNames
    ensures r.Some? ==> r.value == BuiltinType(tipe)
  {
    match tipe
    case "int" => Some(TypeInt)
    case "int8" => Some(TypeInt8)
    case "int16" => Some(TypeInt16)
    case "int32" => Some(TypeInt32)
    case "int64" => Some(TypeInt64)
    case "uint" => Some(TypeUint)
    case "uint8" => Some(TypeUint8)
    case "uint16" => Some(TypeUint16)
    case "uint32" => Some(TypeUint32)
    case "uint64" => Some(TypeUint64)
    case "string" => Some(TypeString)
    case _ => None
  }

  /** The parameter a captured piece stands for: its name, typed by the
      builtin of its type name. */
  function ParamOf(c: ParamCapture): Param
  {
    Param(c.name, BuiltinType(c.typeName))
  }

  function NamesOf(ps: seq<Param>): set<string>
  {
    set p | p in ps :: p.name
  }

  lemma NamesOfAppend(ps: seq<Param>, p: Param)
    ensures NamesOf(ps + [p]) == NamesOf(ps) + {p.name}
  {
    assert forall q :: q in ps + [p] <==> q in ps || q == p;
  }

  /** The comma-separated pieces between the parentheses of `text`. */
  function ParamPieces(text: string): seq<string>
    requires |text| >= 3
  {
    Split(text[1..|text| - 1], ',')
  }

  /** `f` applied to each element, in order. */
  function Each<X, Y>(f: X -> Y, xs: seq<X>): (ys: seq<Y>)
    ensures |ys| == |xs|
    decreases |xs|
  {
    if xs == [] then [] else Each(f, xs[..|xs| - 1]) + [f(xs[|xs| - 1])]
  }

  lemma {:induction false} EachAt<X, Y>(f: X -> Y, xs: seq<X>, i: nat)
    requires i < |xs|
    ensures Each(f, xs)[i] == f(xs[i])
    decreases |xs|
  {
    var k := |xs| - 1;
    if i < k {
      EachAt(f, xs[..k], i);
    }
  }

  /** The match of the parameter expression in each piece. */
  function CapturesOf(pieces: seq<string>): (caps: seq<Option<ParamCapture>>)
    ensures |caps| == |pieces|
  {
    Each(FindParam, pieces)
  }

  lemma CapturesOfAt(pieces: seq<string>, i: nat)
    requires i < |pieces|
    ensures CapturesOf(pieces)[i] == FindParam(pieces[i])
  {
    EachAt(FindParam, pieces, i);
  }

  /** The parameters of a list of pieces, given the match in each piece,
      checked from the first piece to the last; the first bad piece decides
      the error. */
  function ParamsFrom(pieces: seq<string>, caps: seq<Option<ParamCapture>>): (r: Result<seq<Param>, ParseError>)
    requires |caps| == |pieces|
    ensures r.Ok? ==> |r.value| == |pieces|
    decreases |pieces|
  {
    if pieces == [] then Ok([])
    else
      var k := |pieces| - 1;
      match ParamsFrom(pieces[..k], caps[..k])
      case Err(e) => Err(e)
      case Ok(ps) =>
        match caps[k]
        case None => Err(ParseError(0, InvalidParameter, AtPosition(k + 1, pieces[k])))
        case Some(c) =>
          if c.name in NamesOf(ps) then Err(ParseError(0, DuplicateParameterIdentifier, AtPosition(k + 1, c.name)))
          else Ok(ps + [ParamOf(c)])
  }

  /** Once a prefix of the pieces fails, the whole list fails the same way. */
  lemma {:induction false} ParamsFromStopsAtError(pieces: seq<string>, caps: seq<Option<ParamCapture>>, n: nat)
    requires |caps| == |pieces|
    requires n <= |pieces| && ParamsFrom(pieces[..n], caps[..n]).Err?
    ensures ParamsFrom(pieces, caps) == ParamsFrom(pieces[..n], caps[..n])
    decreases |pieces| - n
  {
    if n < |pieces| {
      assert pieces[..n + 1][..n] == pieces[..n];
      assert caps[..n + 1][..n] == caps[..n];
      ParamsFromStopsAtError(pieces, caps, n + 1);
    } else {
      assert pieces[..n] == pieces;
      assert caps[..n] == caps;
    }
  }

  /** The list of the first n + 1 pieces, from that of the first n. */
  lemma ParamsFromExtend(pieces: seq<string>, caps: seq<Option<ParamCapture>>, n: nat)
    requires n < |pieces| == |caps| && ParamsFrom(pieces[..n], caps[..n]).Ok?
    ensures var ps := ParamsFrom(pieces[..n], caps[..n]).value;
      ParamsFrom(pieces[..n + 1], caps[..n + 1]) ==
        match caps[n]
        case None => Err(ParseError(0, InvalidParameter, AtPosition(n + 1, pieces[n])))
        case Some(c) =>
          if c.name in NamesOf(ps) then Err(ParseError(0, DuplicateParameterIdentifier, AtPosition(n + 1, c.name)))
          else Ok(ps + [ParamOf(c)])
  {
    assert pieces[..n + 1][..n] == pieces[..n];
    assert caps[..n + 1][..n] == caps[..n];
  }

  /** A parameter group: texts shorter than three characters (nothing, or
      `()`) hold no parameters. */
  function ParamsSpec(text: string): Result<seq<Param>, ParseError>
  {
    if |text| < 3 then Ok([])
    else
      var pieces := ParamPieces(text);
      ParamsFrom(pieces, CapturesOf(pieces))
  }

  /** The service with one more procedure, in the table of its direction. */
  function AddProcedure(s: Service, p: Procedure): Service
  {
    match p.procType
    case ServerProcedure => s.(serverProcedures := s.serverProcedures[p.name := p])
    case ClientProcedure => s.(clientProcedures := s.clientProcedures[p.name := p])
  }

  function DirectionOf(direction: string): ProcedureType
  {
    if direction == "server" then ServerProcedure else ClientProcedure
  }

  /** A procedure line, the `ln`-th line of the input. */
  function ProcedureStep(s: Service, line: string, ln: nat): Result<Service, ParseError>
  {
    match MatchProcedure(line)
    case None => Err(ParseError(0, InvalidProcDefinition, NoDetail))
    case Some(m) => ProcedureOfCapture(s, m, ln)
  }

  /** The checks on a matched procedure line, in the parser's order. */
  function ProcedureOfCapture(s: Service, m: ProcCapture, ln: nat): Result<Service, ParseError>
  {
    if m.oneway && |m.rets| > 0 then Err(ParseError(0, UnexpectedReturnParameters, NoDetail))
    else
      match ParamsSpec(m.args)
      case Err(e) => Err(e)
      case Ok(args) =>
        match ParamsSpec(m.rets)
        case Err(e) => Err(e)
        case Ok(rets) =>
          var dir := DirectionOf(m.direction);
          if |m.rets| > 0 && |rets| == 0 then Err(ParseError(0, EmptyReturnGroup, NoDetail))
          else if m.name in ProceduresOf(s, dir) then
            Err(ParseError(ln, DuplicateProcedureIdentifier, Quoted(m.name)))
          else Ok(AddProcedure(s, Procedure(m.name, dir, m.oneway, args, rets, Source(ln))))
  }

  /** A new type: only its name is set (no category, no source). */
  function NewType(name: string): Type
  {
    Type(name, Unset, Source(0), None, None, None, None, [])
  }

  function Declare(s: Service, t: Type): Service
  {
    s.(types := s.types[t.name := t])
  }

  /** A `type` line. The third field is tested against the simple, slice and
      map expressions in turn; a field that matches none makes the next case
      read a fourth field of a three-field line, which panics. The slice case
      resolves the whole field (sub-match 0); the map case resolves the whole
      field as the key type and the key's name as the value type. */
  function TypeDefStep(s: Service, line: string): TypeDefResult
  {
    var fields := Fields(line);
    if |fields| != 3 then Rejected(ParseError(0, InvalidTypeDefinition, NoDetail))
    else
      var t := NewType(fields[1]);
      var expr := fields[2];
      if IsSimpleTypeText(expr) then
        match LookupType(s, expr)
        case None => Rejected(ParseError(0, InvalidTypeDefinition, UnknownType("type", expr)))
        case Some(target) => Defined(Declare(s, t.(simpleType := Some(target))))
      else if IsSliceTypeText(expr) then
        match LookupType(s, expr)
        case None => Rejected(ParseError(0, InvalidTypeDefinition, UnknownType("element type", expr)))
        case Some(elem) => Defined(Declare(s, t.(sliceElementType := Some(elem))))
      else
        match MatchMapType(expr)
        case None => Panics
        case Some(c) =>
          match LookupType(s, expr)
          case None => Rejected(ParseError(0, InvalidTypeDefinition, UnknownType("map key type", expr)))
          case Some(key) =>
            match LookupType(s, c.key)
            case None => Rejected(ParseError(0, InvalidTypeDefinition, UnknownType("map value type", c.key)))
            case Some(value) => Defined(Declare(s, t.(mapKeyType := Some(key), mapValueType := Some(value))))
  }

  predicate IsProcedureLine(line: string) { HasPrefix(line, "server") || HasPrefix(line, "client") }

  predicate IsTypeLine(line: string) { HasPrefix(line, "type") }

  /** The body loop from the point where `consumed` lines have been read,
      given what a procedure line and a type line do to the service. */
  function Loop(s: Service, input: Input, consumed: nat,
                procedure: (Service, string, nat) -> Result<Service, ParseError>,
                typeDef: (Service, string) -> TypeDefResult): Outcome
    requires consumed <= |input.lines|
    decreases |input.lines| - consumed
  {
    match ReadAt(input, consumed)
    case AtEOF => Parsed(s)
    case ReadFailed(m) => Failed(ReadError(m))
    case GotLine(line) =>
      if IsProcedureLine(line) then
        match procedure(s, line, consumed + 1)
        case Err(e) => Failed(Syntax(e))
        case Ok(s') => Loop(s', input, consumed + 1, procedure, typeDef)
      else if IsTypeLine(line) then
        match typeDef(s, line)
        case Panics => Panicked
        case Rejected(_) => Loop(s, input, consumed + 1, procedure, typeDef)
        case Defined(s') => Loop(s', input, consumed + 1, procedure, typeDef)
      else Diverges(consumed + 1)
  }

  /** The parser's body loop. */
  function Body(s: Service, input: Input, consumed: nat): Outcome
    requires consumed <= |input.lines|
  {
    Loop(s, input, consumed, ProcedureStep, TypeDefStep)
  }

  /** The outcome of the first Parse call on a fresh parser. */
  function ParseSpec(input: Input): Outcome
  {
    match NameStep(ReadAt(input, 0), 0)
    case Err(e) => Failed(Syntax(e))
    case Ok(name) => Body(NewService().(name := name), input, 1)
  }

  // ---- The parser object ----

  class Parser {
    var used: bool
    var input: Input       // the source behind the line reader
    var ln: nat            // number of lines the reader has handed out
    var service: Service

    ghost predicate Valid()
      reads this
    {
      ln <= |input.lines|
    }

    constructor ()
      ensures Valid() && !used
    {
      used := false;
      input := Input([], None);
      ln := 0;
      service := NewService();
    }

    /** The next line, without consuming it. */
    function Peek(): ReadResult
      reads this
    {
      ReadAt(input, ln)
    }

    /** The next line, consumed. */
    method Line() returns (r: ReadResult)
      requires Valid()
      modifies this`ln
      ensures Valid()
      ensures r == old(Peek())
      ensures ln == if r.GotLine? then old(ln) + 1 else old(ln)
    {
      r := ReadAt(input, ln);
      if r.GotLine? {
        ln := ln + 1;
      }
    }

    method ParseName() returns (perr: Option<ParseError>)
      requires Valid()
      modifies this`ln, this`service
      ensures Valid()
      ensures ln == if old(Peek()).GotLine? then old(ln) + 1 else old(ln)
      ensures match NameStep(old(Peek()), old(ln))
              case Ok(id) => perr.None? && service == old(service).(name := id)
              case Err(e) => perr == Some(e) && service == old(service)
    {
      var consumed := ln;
      var r := Line();
      match r
      case AtEOF =>
        return Some(ParseError(ln, UnexpectedEOF, NoDetail));
      case ReadFailed(m) =>
        return Some(ParseError(ln, ReaderError, ReaderMessage(m)));
      case GotLine(line) =>
        var matches := MatchName(line);
        if matches.None? {
          return Some(ParseError(ln, InvalidNameDefinition, NoDetail));
        }
        service := service.(name := matches.value);
        return None;
    }

    method ParseProcedure() returns (perr: Option<ParseError>)
      requires Valid()
      modifies this`ln, this`service
      ensures Valid()
      ensures ln == if old(Peek()).GotLine? then old(ln) + 1 else old(ln)
      ensures match ProcedureStep(old(service), TextOf(old(Peek())), ln)
              case Ok(s') => perr.None? && service == s'
              case Err(e) => perr == Some(e) && service == old(service)
    {
      ghost var before := service;
      var r := Line();
      var line := TextOf(r);
      var matches := MatchProcedure(line);
      if matches.None? {
        return Some(ParseError(0, InvalidProcDefinition, NoDetail));
      }
      var m := matches.value;
      assert ProcedureStep(before, line, ln) == ProcedureOfCapture(before, m, ln);
      var procType := DirectionOf(m.direction);
      var oneway := m.oneway;
      if oneway && |m.rets| > 0 {
        return Some(ParseError(0, UnexpectedReturnParameters, NoDetail));
      }
      var name := m.name;
      var args, rets;
      args, perr := ParseParams(m.args);
      if perr.Some? {
        return perr;
      }
      assert ParamsSpec(m.args) == Ok(args);
      rets, perr := ParseParams(m.rets);
      if perr.Some? {
        return perr;
      }
      assert ParamsSpec(m.rets) == Ok(rets);
      if |m.rets| > 0 && |rets| == 0 {
        return Some(ParseError(0, EmptyReturnGroup, NoDetail));
      }
      var procMap := ProceduresOf(service, procType);
      if name in procMap {
        return Some(ParseError(ln, DuplicateProcedureIdentifier, Quoted(name)));
      }
      var proc := Procedure(name, procType, oneway, args, rets, Source(ln));
      match procType
      case ServerProcedure =>
        service := service.(serverProcedures := procMap[name := proc]);
      case ClientProcedure =>
        service := service.(clientProcedures := procMap[name := proc]);
      return None;
    }

    /** One parameter list. `taken` holds the names seen so far in this list
        only; `list` grows one parameter per piece. */
    method ParseParams(text: string) returns (list: seq<Param>, perr: Option<ParseError>)
      ensures match ParamsSpec(text)
              case Ok(ps) => perr.None? && list == ps
              case Err(e) => perr == Some(e)
    {
      list := [];
      perr := None;
      if |text| < 3 {
        return;
      }
      var taken: set<string> := {};
      var paramStrings := Split(text[1..|text| - 1], ',');
      ghost var caps := CapturesOf(paramStrings);
      var i := 0;
      while i < |paramStrings|
        invariant 0 <= i <= |paramStrings|
        invariant ParamsFrom(paramStrings[..i], caps[..i]) == Ok(list)
        invariant taken == NamesOf(list)
      {
        var paramString := paramStrings[i];
        var matches := FindParam(paramString);
        CapturesOfAt(paramStrings, i);
        ParamsFromExtend(paramStrings, caps, i);
        if matches.None? {
          perr := Some(ParseError(0, InvalidParameter, AtPosition(i + 1, paramString)));
          ParamsFromStopsAtError(paramStrings, caps, i + 1);
          return;
        }
        var name := matches.value.name;
        var tipe := matches.value.typeName;
        if name in taken {
          perr := Some(ParseError(0, DuplicateParameterIdentifier, AtPosition(i + 1, name)));
          ParamsFromStopsAtError(paramStrings, caps, i + 1);
          return;
        }
        taken := taken + {name};
        var p := Param(name, ParamTypeFor(tipe).value);
        assert p == ParamOf(matches.value);
        NamesOfAppend(list, p);
        list := list + [p];
        i := i + 1;
      }
      assert paramStrings[..i] == paramStrings;
      assert caps[..i] == caps;
    }

    method ParseTypeDefinition() returns (perr: Option<ParseError>, panics: bool)
      requires Valid()
      modifies this`ln, this`service
      ensures Valid()
      ensures ln == if old(Peek()).GotLine? then old(ln) + 1 else old(ln)
      ensures match TypeDefStep(old(service), TextOf(old(Peek())))
              case Defined(s') => !panics && perr.None? && service == s'
              case Rejected(e) => !panics && perr == Some(e) && service == old(service)
              case Panics => panics && service == old(service)
    {
      panics := false;
      var invalid := ParseError(0, InvalidTypeDefinition, NoDetail);
      var r := Line();
      var line := TextOf(r);
      var fields := Fields(line);
      if |fields| != 3 {
        return Some(invalid), false;
      }
      var t := NewType(fields[1]);
      var expr := fields[2];
      if IsSimpleTypeText(expr) {
        var target := LookupType(service, expr);
        if target.None? {
          return Some(ParseError(0, InvalidTypeDefinition, UnknownType("type", expr))), false;
        }
        t := t.(simpleType := target);
      } else if IsSliceTypeText(expr) {
        var elementTypeName := expr;
        var elem := LookupType(service, elementTypeName);
        if elem.None? {
          return Some(ParseError(0, InvalidTypeDefinition, UnknownType("element type", elementTypeName))), false;
        }
        t := t.(sliceElementType := elem);
      } else if MatchMapType(expr).Some? {
        var keyValueTypeName := [expr, MatchMapType(expr).value.key];
        var key := LookupType(service, keyValueTypeName[0]);
        if key.None? {
          return Some(ParseError(0, InvalidTypeDefinition, UnknownType("map key type", keyValueTypeName[0]))), false;
        }
        var value := LookupType(service, keyValueTypeName[1]);
        if value.None? {
          return Some(ParseError(0, InvalidTypeDefinition, UnknownType("map value type", keyValueTypeName[1]))), false;
        }
        t := t.(mapKeyType := key, mapValueType := value);
      } else {
        // the next case reads fields[3] of a three-field line
        return None, true;
      }
      service := service.(types := service.types[t.name := t]);
      return None, false;
    }

    /** Parses a definition stream. A parser serves one call: a second call
        fails at once and touches nothing. */
    method Parse(src: Input) returns (out: Outcome)
      modifies this
      ensures used
      ensures old(used) ==> out == Failed(AlreadyUsed)
      ensures old(used) ==> input == old(input) && ln == old(ln) && service == old(service)
      ensures !old(used) ==> out == ParseSpec(src) && input == src && Valid()
    {
      if used {
        return Failed(AlreadyUsed);
      }
      used := true;
      service := NewService();
      input := src;
      ln := 0;

      var perr := ParseName();
      if perr.Some? {
        return Failed(Syntax(perr.value));
      }

      while true
        invariant used && Valid() && input == src && 1 <= ln
        invariant Body(service, input, ln) == ParseSpec(src)
        decreases |input.lines| - ln
      {
        var peek := Peek();
        match peek
        case AtEOF =>
          break;
        case ReadFailed(m) =>
          return Failed(ReadError(m));
        case GotLine(peekLine) =>
          if HasPrefix(peekLine, "server") || HasPrefix(peekLine, "client") {
            perr := ParseProcedure();
            if perr.Some? {
              return Failed(Syntax(perr.value));
            }
          } else if HasPrefix(peekLine, "type") {
            var typeErr, panics := ParseTypeDefinition();
            if panics {
              return Panicked;
            }
            // typeErr is dropped: the test that follows the call in the
            // source checks the (nil) error of the peek instead
          } else {
            // nothing consumes the line, so every later iteration peeks it again
            return Diverges(ln + 1);
          }
      }
      return Parsed(service);
    }
  }
}
