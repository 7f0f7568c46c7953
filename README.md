# ango: the definition parser, the type table and the service runtime

ango generates WebSocket RPC code from a small definition language. An
`.ango` file has a `name <identifier>` line, then procedure lines
(`server|client [oneway] name(args) (rets)`) and type lines
(`type name <simple|[]slice|map[k]v>`). This project models three parts of
ango and proves what they guarantee:

- **The type table** (`definitions.dfy`, module `Definitions`). It covers
  the `TypeCategory` constants, the `Type` and `StructField` records, and
  the fixed `BuiltinTypes` table of twelve builtin types.
- **The parser** (`grammar.dfy`, `parser.dfy`, `parser_properties.dfy`).
  - `grammar.dfy` (module `Grammar`) gives the regular expressions of the
    parser as explicit recognisers for the same languages, and proves for
    the name, group and procedure expressions that each recogniser accepts
    exactly the texts of its expression, with the same sub-matches. It also
    gives `strings.Split` and `strings.Fields`, with their round trips.
  - `parser.dfy` (module `Parsing`) holds the single-use `Parser` object.
    Its fields are `used`, the line reader's input, the line counter `ln`
    and `service`. It has one method per step of the source (`Parse`,
    `ParseName`, `ParseProcedure`, `ParseParams`, `ParseTypeDefinition`).
    Each method is proved equal to a specification function of that step.
    `ParseSpec` composes those functions into the outcome of a whole parse.
  - `parser_properties.dfy` (module `ParserProperties`) proves what those
    functions mean:
    - a parameter list is accepted exactly when every piece matches and
      no name repeats;
    - the error rules of procedure and type lines;
    - the effect of a step on the procedure and type tables;
    - every parsed service is well formed;
    - what a whole parse can end in.
- **The generated service runtime** (`protocol.dfy`,
  `protocol_properties.dfy`, modules `Protocol` and `ProtocolProperties`).
  - `Server.ServeHTTP` performs the version handshake. It then runs the
    protocol loop for a new session and calls the session's `Stop`
    exactly once, with the loop's error.
  - `RunProtocol` is the dispatch loop. It is a `while` loop over a
    `Conn` and a `Session`, proved equal to the function `Run`.
  - The lemmas show that:
    - every kind of incoming message does what the template says;
    - over a whole run, the connection carries exactly one response per
      two-way request handled, in order, with the request's callback id
      and exactly one of data and error.

The parser is modelled as written, including its behaviour on inputs the
authors may not have foreseen:

- A rejected type line does not stop the parse. The body loop tests the
  peek error `err` instead of the step's `perr` (parser/parse.go:161-165),
  so the parse continues with the next line.
- A line that starts with neither `server`, `client` nor `type` is never
  consumed. The body loop peeks it for ever, and the model's outcome is
  `Diverges(line)`.
- For a slice type the whole text `[]elem` is looked up, not the element
  name (parser/parse.go:379-380).
- For a map type the whole text is looked up as the key type, and the key
  name as the value type (parser/parse.go:389-397).
- A type line whose third field has no known form indexes `fields[3]` of a
  three-element slice, which is a run-time panic. The model's outcome is
  `Panicked`.
- A declared type has category 0 and source line 0, because the source
  sets neither.
- Only the name error and the duplicate-procedure error record a line
  number. Every other error has line 0.

## Model

| member | source | states |
|---|---|---|
| Definitions.CategoriesDistinctAndNonzero | definitions/type.go:7-22 | the five categories are 1..5 in declaration order, pairwise distinct, and none is the zero value |
| Definitions.BuiltinTableKeys | definitions/type.go:70-83 | the table is keyed by exactly the twelve builtin names |
| Definitions.BuiltinTableShape | definitions/type.go:57-83 | each entry is the builtin of its own name: that name, category Builtin, nothing else set |
| Definitions.BuiltinTableSize | definitions/type.go:57-83 | the twelve names are distinct and the table has twelve entries |
| Definitions.LookupType | parser/parse.go:368-403 | (the cited lines are the four call sites in `parseTypeDefinition`; the method itself is service code outside these files) a name resolves iff it is a builtin or a declared type, builtins taking precedence |
| Grammar.TypePrefix | parser/parse.go:28-29 | the alternative of the parameter-type expression chosen at the start of the text: a type name that prefixes it and is the longest such name (`int16` for `int16x`, not `int`), or none iff no `int`/`uint`/`string` prefix |
| Grammar.ParamTypeNameIff | parser/parse.go:28-29 | the list of type names the recognisers search holds exactly the eleven names of the type alternation |
| Grammar.TypePrefixOfName | parser/parse.go:28-29 | a type name followed by a non-identifier character is matched as that whole name |
| Grammar.TypePrefixOfWord | parser/parse.go:28-29 | a prefix that is a type name and ends the word is the match |
| Grammar.MatchName | parser/parse.go:34 | a captured name is an identifier |
| Grammar.MatchNameIff | parser/parse.go:27-34 | the name line matches with capture id iff it is `name`, one or more blanks, then the identifier id |
| Grammar.MatchNameSome | parser/parse.go:34 | a matching line splits into `name`, blanks and the captured identifier |
| Grammar.MatchNameOfParts | parser/parse.go:34 | `name`, blanks and an identifier always match, capturing that identifier |
| Grammar.MatchParamAt | parser/parse.go:42 | a match at the start captures an identifier and a parameter type name |
| Grammar.FindParam | parser/parse.go:42 | the unanchored search captures an identifier and a type name, and agrees with a match at the start when there is one |
| Grammar.MatchParamAtOfParamText | parser/parse.go:37 | a well-formed parameter text is matched at its start, capturing its name and its type word |
| Grammar.FindParamOfParamText | parser/parse.go:37-42 | a well-formed parameter text is always found |
| Grammar.Split | parser/parse.go:281 | there is at least one piece and no piece contains the separator |
| Grammar.JoinSplit | parser/parse.go:281 | joining the pieces with the separator gives back the text |
| Grammar.SplitJoin | parser/parse.go:281 | splitting pieces joined by the separator gives back the pieces |
| Grammar.SplitNoSep | parser/parse.go:281 | text without separator splits into itself alone |
| Grammar.SplitPrefix | parser/parse.go:281 | a piece before the first separator is the first element of the split |
| Grammar.Fields | parser/parse.go:357 | every field is non-empty and has no white space |
| Grammar.FieldsSkipsSpace | parser/parse.go:357 | leading white space does not change the fields |
| Grammar.FieldsOfJoin | parser/parse.go:357 | words joined by spaces split back into those words |
| Grammar.MatchMapTypeIff | parser/parse.go:50 | a map type text matches with captures k, v iff it is `map[k]v` with identifiers k and v |
| Grammar.ParamListNoClose | parser/parse.go:37-38 | the text between a group's parentheses never contains `)`, so a group ends at its first `)` |
| Grammar.MatchGroup | parser/parse.go:38 | a matched parenthesised group is a prefix of the text and is a parameter group (soundness; the converse is MatchGroupIff) |
| Grammar.MatchGroupOfGroup | parser/parse.go:38 | a parameter group followed by any text is matched as exactly that group |
| Grammar.MatchGroupIff | parser/parse.go:38 | the group at the start of the text has length k iff the first k characters are `(`, an optional parameter, comma-led parameters and `)` |
| Grammar.MatchGroups | parser/parse.go:39 | the part after the name captures an argument group and an empty or well-formed return group |
| Grammar.MatchGroupsSome | parser/parse.go:39 | a matched part splits into the argument group, blanks, the return group or nothing, and blanks |
| Grammar.MatchGroupsOfParts | parser/parse.go:39 | an argument group, blanks, a return group or nothing, and blanks always match, with those two groups captured |
| Grammar.MatchGroupsIff | parser/parse.go:39 | the part after the name matches with captures args and rets iff it is exactly args, blanks, rets (a group or empty) and blanks |
| Grammar.MatchProcedureTail | parser/parse.go:39 | after the direction, a match captures an identifier, an argument group and an empty or well-formed return group (soundness; the converse is MatchProcedureTailIff) |
| Grammar.MatchProcedureTailSome | parser/parse.go:39 | a matched tail splits into the captured identifier, blanks and the groups with the captured groups |
| Grammar.MatchProcedureTailOfParts | parser/parse.go:39 | an identifier, blanks and well-formed groups always match, capturing that identifier and those groups |
| Grammar.MatchProcedureTailIff | parser/parse.go:39 | the tail matches with captures name, args, rets iff it is the identifier name, blanks, and the groups args and rets |
| Grammar.MatchOnewayTail | parser/parse.go:39 | the same after `oneway` and blanks (soundness; the converse is MatchOnewayTailIff) |
| Grammar.MatchOnewayTailSome | parser/parse.go:39 | a matched oneway tail splits into `oneway`, one or more blanks and a tail with the same captures |
| Grammar.MatchOnewayTailOfParts | parser/parse.go:39 | `oneway`, one or more blanks and a tail always match, with the tail's captures |
| Grammar.MatchOnewayTailIff | parser/parse.go:39 | the text matches with the `oneway` group taken iff it is `oneway`, one or more blanks and a tail with those captures |
| Grammar.MatchRest | parser/parse.go:39 | the rest of a line captures the given direction and an identifier |
| Grammar.MatchRestIff | parser/parse.go:39 | the rest after the direction and its blanks is captured as oneway iff it reads as `oneway`, blanks and a tail; as two-way iff it reads as a tail and in no way as a oneway tail (the optional group is taken whenever the rest then matches) |
| Grammar.MatchProcedure | parser/parse.go:39 | a matched procedure line captures an identifier as its name (soundness; the converse is MatchProcedureIff) |
| Grammar.MatchProcedureSome | parser/parse.go:39 | a matched line splits into its direction, one or more blanks and a rest read as MatchRestIff states |
| Grammar.MatchProcedureOfParts | parser/parse.go:39 | `server` or `client`, one or more blanks and a rest read that way always match, with exactly its captures |
| Grammar.MatchProcedureIff | parser/parse.go:39 | a line matches with captures direction, oneway, name, args, rets iff it is the direction, blanks and such a rest: the procedure expression accepts exactly these lines with exactly these sub-matches |
| Grammar.OnewayTakenFirst | parser/parse.go:39 | `server`/`client`, blanks, `oneway`, blanks and a tail is a oneway procedure with the tail's name, even when that name is itself `oneway` |
| Grammar.OnewayAsName | parser/parse.go:39 | `server`/`client`, blanks, `oneway`, optional blanks and the groups is a two-way procedure named `oneway` |
| Grammar.MatchProcedureShape | parser/parse.go:39 | a matched line starts with its direction `server` or `client` and its groups are well formed |
| Parsing.NameStep | parser/parse.go:173-199 | the name step succeeds iff a line was read and it matches the name expression, and yields an identifier |
| Parsing.ParamTypeFor | parser/parse.go:315-341 | each parameter type name maps to the builtin of that name, and only those names map |
| Parsing.NamesOfAppend | parser/parse.go:303-309 | appending a parameter adds exactly its name to the taken names |
| Parsing.CapturesOfAt | parser/parse.go:288-290 | the capture of each piece is the parameter search on that piece |
| Parsing.ParamsFrom | parser/parse.go:288-345 | a list that parses has one parameter per piece |
| Parsing.ParamsFromStopsAtError | parser/parse.go:291-308 | the first failing piece decides the result; later pieces are not looked at |
| Parsing.ParamsFromExtend | parser/parse.go:288-345 | one more piece fails for no match, fails for a taken name (position counted from 1), or appends its parameter |
| Parsing.Parser.constructor | parser/parse.go:119-123 | a new parser is unused |
| Parsing.Parser.Line | parser/parse.go:174 | reading a line returns what a peek would and consumes only a line actually read |
| Parsing.Parser.ParseName | parser/parse.go:173-199 | sets the service name to the captured identifier, or returns the name step's error and leaves the service alone |
| Parsing.Parser.ParseProcedure | parser/parse.go:201-267 | the service becomes the procedure step's result, or the step's error is returned and the service is unchanged |
| Parsing.Parser.ParseParams | parser/parse.go:269-348 | the loop over the pieces returns exactly the parameter list of the specification, or its error |
| Parsing.Parser.ParseTypeDefinition | parser/parse.go:350-417 | the service gains the declared type, or the error is returned, or the step panics, with the service unchanged |
| Parsing.Parser.Parse | parser/parse.go:127-171 | a used parser fails at once without changing anything; otherwise the peek/consume loop ends in exactly the outcome of the whole-parse specification |
| ParserProperties.NamesOfIndex | parser/parse.go:303-309 | a name is taken iff some parameter in the list has it |
| ParserProperties.ParamsFromOkStep | parser/parse.go:288-345 | on success the last piece matched, its name was new and its parameter is appended |
| ParserProperties.ParamsFromValues | parser/parse.go:288-345 | on success parameter i is the one captured from piece i |
| ParserProperties.ParamsFromOkAccepted | parser/parse.go:288-345 | on success every piece matched and the names are pairwise distinct |
| ParserProperties.AcceptedParamsFromOk | parser/parse.go:288-345 | when every piece matches with distinct names, the list parses |
| ParserProperties.ParamsFromErrAt | parser/parse.go:291-308 | a failure is reported for the first piece at which acceptance breaks, with that piece's error |
| ParserProperties.ParamsFromMeaning | parser/parse.go:269-348 | success iff accepted; the values on success; the first rejected piece on failure |
| ParserProperties.CapturesOfWellFormed | parser/parse.go:42 | every capture has an identifier name and a parameter type name |
| ParserProperties.CapturesOfAll | parser/parse.go:288-290 | all captures are the parameter search of their pieces |
| ParserProperties.ParamsFromWellFormed | parser/parse.go:302-344 | a parsed list has distinct names and only builtin types |
| ParserProperties.ParamsSpecMeaning | parser/parse.go:269-348 | a group of three or more characters parses iff every comma piece is a parameter and no name repeats; then one parameter per piece, in order, distinct, builtin typed |
| ParserProperties.AcceptedCaptures | parser/parse.go:288-309 | acceptance of the captures is acceptance of the pieces |
| ParserProperties.ParamsSpecWellFormed | parser/parse.go:269-348 | any parsed list has distinct names and builtin types |
| ParserProperties.ParamsSpecErrors | parser/parse.go:291-307 | parameter errors carry no line and are of the invalid-parameter or duplicate-parameter kind |
| ParserProperties.ParamsSpecNonEmpty | parser/parse.go:270-285 | a group of three or more characters that parses has at least one parameter |
| ParserProperties.GroupParamError | parser/parse.go:290-296 | in a well-formed group, the only unmatched piece can be an empty first piece |
| ParserProperties.ParamTypeForIsTable | parser/parse.go:315-341 | the type chosen for a parameter is the builtin table entry of that name |
| ParserProperties.ParamTypesAreBuiltinsButBool | parser/parse.go:29 | the parameter type names are exactly the builtin names except `bool` |
| ParserProperties.EmptyRetsMeansEmptyGroup | parser/parse.go:237-245 | a return group yields no parameters and is non-empty text iff it is `()` |
| ParserProperties.CaptureErrors | parser/parse.go:224-263 | oneway with returns is rejected; `()` returns are an empty return group exactly when the arguments parse; a duplicate is reported with its line and quoted name; other errors have no line |
| ParserProperties.CaptureSuccess | parser/parse.go:209-266 | a matched line is accepted iff not oneway-with-returns, both groups parse, the returns are not `()` and the name is new; then exactly that procedure is added to its direction's table and nothing else changes |
| ParserProperties.AddProcedureEffect | parser/parse.go:247-264 | the procedure goes into the table of its direction, which grows by one for a new name; the other table, the name and the types stay |
| ParserProperties.CaptureErrorKinds | parser/parse.go:224-263 | a matched line fails only with a procedure-line kind other than invalid definition, and a recorded line is the current line |
| ParserProperties.ProcedureStepErrors | parser/parse.go:201-267 | an unmatched line is an invalid procedure definition with no line; all errors are procedure-line kinds |
| ParserProperties.TypeFormsExclusive | parser/parse.go:48-50 | the simple, slice and map type forms never overlap |
| ParserProperties.CompositeTextNotBuiltin | parser/parse.go:378-397 | slice and map texts are never builtin names, so looking them up finds only a declared type of that exact text |
| ParserProperties.TypeDefShape | parser/parse.go:357-413 | a line without three fields is an invalid type definition without detail; the step panics iff the third field has none of the three forms; rejections have no line |
| ParserProperties.TypeDefSimple | parser/parse.go:368-376 | a simple type is rejected iff its target is unknown, with the "unknown type" detail; otherwise it maps to the target |
| ParserProperties.TypeDefSlice | parser/parse.go:378-386 | a slice type is rejected iff the whole `[]elem` text is not a declared type; otherwise its element type is that declared type |
| ParserProperties.TypeDefMap | parser/parse.go:388-403 | a map type is rejected for an unknown key (the whole text) or then an unknown value (the key name), with the matching detail; otherwise it records those types |
| ParserProperties.TypeDefStored | parser/parse.go:362-416 | a declared type is stored under its name, replacing any type of that name, and nothing else changes |
| ParserProperties.DeclareStores | parser/parse.go:415 | storing a type adds or replaces exactly that entry |
| ParserProperties.CaptureKeepsWellFormed | parser/parse.go:209-266 | an accepted procedure line keeps the service well formed |
| ParserProperties.ProcedureStepKeepsWellFormed | parser/parse.go:201-267 | any accepted procedure line keeps the service well formed and its name |
| ParserProperties.TypeDefStepKeepsWellFormed | parser/parse.go:350-417 | a declared type keeps the service well formed and its name |
| ParserProperties.LoopParsed | parser/parse.go:144-170 | the body loop succeeds only at a clean end of input reached through recognised lines, and keeps the service well formed |
| ParserProperties.BodyParsed | parser/parse.go:144-170 | the same for the parser's own steps |
| ParserProperties.LoopReadError | parser/parse.go:145-151 | a read error is reported only after all remaining lines were recognised |
| ParserProperties.LoopSyntaxErrors | parser/parse.go:154-159 | syntax errors of the loop come from procedure lines only |
| ParserProperties.LoopDiverges | parser/parse.go:144-167 | the loop spins on the first unrecognised line, after recognised lines only |
| ParserProperties.BodyOutcomes | parser/parse.go:144-170 | read errors, procedure-line errors and divergence, for the parser's own steps |
| ParserProperties.LoopNeverAlreadyUsed | parser/parse.go:144-170 | the loop fails only with a read error or a syntax error |
| ParserProperties.ParseNameErrors | parser/parse.go:173-194 | empty input gives unexpected EOF or the reader error; a first line that is no name line gives invalid name definition at line 1 |
| ParserProperties.ParseSucceeds | parser/parse.go:127-171 | a successful parse read a name line for the service's identifier, recognised every other line, ended at a clean end of file and produced a well-formed service |
| ParserProperties.ParseOutcomes | parser/parse.go:127-171 | a parse never fails with a type-definition error, and diverges only on an unrecognised line after the name line |
| ParserProperties.TypeErrorSkipped | parser/parse.go:160-166 | a rejected type line is skipped and the parse goes on |
| ParserProperties.ProcedureErrorAborts | parser/parse.go:154-159 | a rejected procedure line ends the parse with its error |
| Protocol.Conn.ReadText | templates/ango-service.tmpl.go:101 | reading yields the next frame or the transport's error, and consumes one frame |
| Protocol.Conn.ReadJSON | templates/ango-service.tmpl.go:145-149 | reading decodes the next frame as a message, or fails with the read or decode error |
| Protocol.Conn.Write | templates/ango-service.tmpl.go:184-194 | a write either sends the frame or fails with the transport's reason and sends nothing |
| Protocol.Session.Call | templates/ango-service.tmpl.go:171 | calling a procedure records the request and returns the session's reply for that call |
| Protocol.Session.Stop | templates/ango-service.tmpl.go:137-139 | Stop records the error it is given |
| Protocol.DispatchOf | templates/ango-service.tmpl.go:151-205 | a response is ignored; a request is served iff it names a server procedure and its arguments decode; an unknown procedure, an undecodable argument set and any other type each end the loop with their error |
| Protocol.Response | templates/ango-service.tmpl.go:174-194 | a response has type `res`, the request's callback id, and exactly one of the return data or an `errorReturned` error carrying the message |
| Protocol.Step | templates/ango-service.tmpl.go:143-206 | a turn that goes on has consumed a frame |
| Protocol.RunProtocol | templates/ango-service.tmpl.go:142-207 | the loop returns exactly the error, connection state and handled requests of the specification `Run`, and never calls Stop |
| Protocol.HandshakeOf | templates/ango-service.tmpl.go:101-124 | a connection is accepted iff the first frame is the server's version and the `good` reply is written; a different version is answered `invalid` and refused with the invalid-version error; a read error refuses with that error; a refusal never writes `good` |
| Protocol.Server.constructor | templates/ango-service.tmpl.go:79-82 | the server serves the service's server procedures |
| Protocol.Server.ReportError | templates/ango-service.tmpl.go:101-106 | an error reaches the callback only when one is installed |
| Protocol.Server.ServeHTTP | templates/ango-service.tmpl.go:101-139 | a refused handshake reports its error and creates no session; an accepted one creates a session, runs the loop on it and calls its Stop exactly once, with the loop's error |
| ProtocolProperties.ReadErrorEndsRun | templates/ango-service.tmpl.go:145-149 | a read or decode error ends the loop with that error, writing nothing and calling nothing |
| ProtocolProperties.RejectedEndsRun | templates/ango-service.tmpl.go:151-205 | a rejected message ends the loop with its error, writing nothing and calling nothing |
| ProtocolProperties.ResponseIgnored | templates/ango-service.tmpl.go:200-202 | a response message is consumed and the loop goes on unchanged |
| ProtocolProperties.OnewayRequest | templates/ango-service.tmpl.go:165-195 | a oneway request calls its procedure, writes nothing, and the loop goes on |
| ProtocolProperties.TwoWayRequest | templates/ango-service.tmpl.go:174-194 | a two-way request calls its procedure and writes one `res` message with the request's callback id; the loop goes on unless that write fails |
| ProtocolProperties.RepliesAppend | templates/ango-service.tmpl.go:143-206 | replies of consecutive requests concatenate |
| ProtocolProperties.StepAnswered | templates/ango-service.tmpl.go:143-206 | one turn handles at most one served request and writes exactly its reply, except a reply whose write failed |
| ProtocolProperties.RunAnswered | templates/ango-service.tmpl.go:142-207 | over a whole run the session handles only served requests, and the connection receives exactly their replies in order, short of the last one only when a write failed |
| ProtocolProperties.RepliesAreResponses | templates/ango-service.tmpl.go:174-194 | every reply is a `res` message with exactly one of data and error, carrying the callback id of a handled request |
| ProtocolProperties.RepliesCount | templates/ango-service.tmpl.go:165-195 | there is one reply per two-way request and none per oneway request |
| ProtocolProperties.OnewayServiceWritesNothing | templates/ango-service.tmpl.go:165-195 | a service of oneway procedures never writes during the loop, and no write error can end it |
| ProtocolProperties.AcceptedTranscript | templates/ango-service.tmpl.go:118-139 | an accepted connection carries `good` and then only `res` messages, each with exactly one of data and error |

## Left out

- The line reader (`newLineReader`, its `Peek` and `Line`) and `ParseError` are declared outside the three core files. They are modelled as the parser uses them (`Parsing.Input`, `Parsing.ReadAt`, `Parsing.ParseError` in `parser.dfy`): the reader is the lines it yields, then end of file or a read error, and `ln` counts the lines handed out; an error is a line, a kind with the message of its `ParseErr*` constant (`KindText`) and a structured detail (`ExtraText` renders the `Extra` text). The reader's buffering and `ParseError.Error`'s formatting are left out.
- The `Service`, `Procedure` and `Param` records and `Service.LookupType` are also declared outside the core files. They are modelled in `definitions.dfy` with the fields the parser sets. The body of `LookupType` is not available, so its order, the builtin table first and then the declared types, is an assumption of the model.
- The regular-expression engine is replaced by explicit recognisers for the same languages. The unanchored parameter expression is a leftmost search over start positions.
- Strings are sequences of code points. The regular-expression recognisers accept ASCII characters only, so byte and code-point views agree on what they accept. `Fields` is the exception: like `strings.Fields` it splits on every Unicode white-space character (U+00A0 and U+3000 among them), decoded as code points.
- Grammar.MatchGroup: its own `ensures` gives only what a match captures; which texts match is proved separately in Grammar.MatchGroupIff, since the converse needs lemmas about `Split`.
- Grammar.MatchProcedureTail: its own `ensures` gives only what a match captures; the converse is Grammar.MatchProcedureTailIff.
- Grammar.MatchOnewayTail: its own `ensures` gives only what a match captures; the converse is Grammar.MatchOnewayTailIff.
- Grammar.MatchProcedure: its own `ensures` gives only what a match captures; the converse, with every sub-match, is Grammar.MatchProcedureIff.
- Grammar.MatchGroups: its own `ensures` gives only what a match captures; the converse is Grammar.MatchGroupsIff.
- Grammar.MatchRest: its own `ensures` gives only what a match captures; the converse is Grammar.MatchRestIff.
- `verbosef`, `printParseErrorf` and every `fmt.Printf` diagnostic are left out. They only print; the `Config` flags only switch that printing.
- The struct branch of `parseTypeDefinition` is left out. It can only be reached through an out-of-range index, which panics, so the model's outcome is `Panicked`.
- A parse that never ends is an outcome (`Diverges` with the line number), not a non-terminating computation.
- The WebSocket upgrade and its handshake errors are left out (templates/ango-service.tmpl.go:86-99). Frames and writes are a scripted connection: the frames to arrive and the outcome of each write.
- The `wstext` text framing is left out.
- JSON encoding and decoding are an oracle `Codec`: a frame to a root message, and arguments to a decode result. Payloads stay raw text, so encoding details such as `omitempty` on a zero callback id are left out.
- Session procedures are an oracle `Handler`: the reply depends on the call's position, the procedure and its raw arguments. Decoding into typed argument and return records, done by generated code, is left out.
- The `client` value built in `ServeHTTP` and the client procedure stubs are left out (templates/ango-service.tmpl.go:128-131, 209-219). The sessions a server creates use the handler it was built with.
- Template expansion (`{{range}}`, `CapitalizedName`, `GoArgs`) is left out. The runtime is modelled for an arbitrary server procedure table.
- Concurrency between connections is left out. Each call of `ServeHTTP` runs to completion on its own connection.
- The `example/main.go` program is left out. It only starts an HTTP server and contains an integer addition.
