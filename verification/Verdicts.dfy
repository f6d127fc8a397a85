/** From a checker's captured stdout to its verdict: the last line, the tolerant decoder, and what is stored of it. */
module Verdicts {
  import opened Prelude
  import opened Ordering
  import opened Text
  import opened Codes

  /** A JSON number the way serde_json keeps it: unsigned, negative, or floating. */
  datatype Number = PosInt(n: nat) | NegInt(i: int) | Float(r: real)

  datatype Json =
    | Null
    | Bool(b: bool)
    | Num(num: Number)
    | Str(s: string)
    | Arr(items: seq<Json>)
    | Obj(fields: map<string, Json>)

  type Fields = map<string, Json>

  datatype ValidationOutput = ValidationOutput(
    ok: bool, message: Option<string>, testcase: Option<u32>, unknownKeys: seq<string>)

  datatype VerdictError =
    | NoOutput
    | NotJson(excerpt: string)
    | NotAnObject(excerpt: string)
    | MissingOk
    | WrongType(field: string, expected: string)
    | MissingMessage
    | ExitCodeMismatch(ok: bool, exitCode: i32)

  const MAX_MESSAGE_CHARS: nat := 500
  const MAX_EXCERPT_CHARS: nat := 120
  const ELLIPSIS: char := '\U{2026}'
  const U32_MAX: nat := 0xFFFF_FFFF

  /** The first `limit` characters and an ellipsis, if there are more than that. */
  function Clip(s: string, limit: nat): string {
    if |s| <= limit then s else s[..limit] + [ELLIPSIS]
  }

  function Truncate(message: string): string {
    Clip(message, MAX_MESSAGE_CHARS)
  }

  function Excerpt(line: string): string {
    Clip(Trim(line), MAX_EXCERPT_CHARS)
  }

  // Decoding one object.

  function DecodeOk(fields: Fields): Result<bool, VerdictError> {
    if "ok" !in fields then Err(MissingOk)
    else match fields["ok"]
      case Bool(b) => Ok(b)
      case _ => Err(WrongType("ok", "true or false"))
  }

  function DecodeMessage(fields: Fields): Result<Option<string>, VerdictError> {
    if "message" !in fields then Ok(None)
    else match fields["message"]
      case Null => Ok(None)
      case Str(s) => Ok(Some(Truncate(s)))
      case _ => Err(WrongType("message", "a string"))
  }

  function DecodeTestcase(fields: Fields): Result<Option<u32>, VerdictError> {
    if "testcase" !in fields then Ok(None)
    else match fields["testcase"]
      case Null => Ok(None)
      case Num(PosInt(n)) =>
        if n == 0 || n > U32_MAX then Err(WrongType("testcase", "a positive integer")) else Ok(Some(n as u32))
      case _ => Err(WrongType("testcase", "a positive integer"))
  }

  /** Keys in the map's own order, which is the order of their text. */
  function UnknownKeys(fields: Fields): (r: seq<string>)
    ensures Increasing(LexBelow, r)
    ensures forall k :: k in r <==> k in fields && k != "ok" && k != "message" && k != "testcase"
  {
    LexIsTotal();
    Ascending(LexBelow, set k | k in fields && k != "ok" && k != "message" && k != "testcase")
  }

  /** The checks of `from_line` after parsing, in their order. */
  function FromObject(fields: Fields): Result<ValidationOutput, VerdictError> {
    match DecodeOk(fields)
    case Err(e) => Err(e)
    case Ok(ok) =>
      match DecodeMessage(fields)
      case Err(e) => Err(e)
      case Ok(message) =>
        match DecodeTestcase(fields)
        case Err(e) => Err(e)
        case Ok(testcase) =>
          if !ok && (message.None? || Trim(message.value) == "") then Err(MissingMessage)
          else Ok(ValidationOutput(ok, message, testcase, UnknownKeys(fields)))
  }

  /** `from_line`, over any JSON text parser. */
  function FromLine(parse: string -> Option<Json>, line: string): Result<ValidationOutput, VerdictError> {
    match parse(Trim(line))
    case None => Err(NotJson(Excerpt(line)))
    case Some(v) =>
      match v
      case Obj(fields) => FromObject(fields)
      case _ => Err(NotAnObject(Excerpt(line)))
  }

  // Finding the line.

  function StripCr(s: string): string {
    if s != "" && s[|s| - 1] == '\r' then s[..|s| - 1] else s
  }

  /** `str::lines`: terminated lines lose "\n" or "\r\n"; an unterminated last line is kept unless it is empty. */
  function Lines(s: string): seq<string> {
    var parts := Split(s, '\n');
    var n := |parts| - 1;
    seq(n, i requires 0 <= i < n => StripCr(parts[i])) + if parts[n] == "" then [] else [parts[n]]
  }

  /** `lines.rev().map(trim).find(not empty)` */
  function LastNonBlank(lines: seq<string>): Option<string> {
    if lines == [] then None
    else
      var line := Trim(lines[|lines| - 1]);
      if line != "" then Some(line) else LastNonBlank(lines[..|lines| - 1])
  }

  function FromStdout(parse: string -> Option<Json>, stdout: string): Result<ValidationOutput, VerdictError> {
    match LastNonBlank(Lines(stdout))
    case None => Err(NoOutput)
    case Some(line) => FromLine(parse, line)
  }

  /** Only what a line trims to matters. */
  lemma {:induction false} LastNonBlankByTrim(a: seq<string>, b: seq<string>)
    requires |a| == |b| && forall i :: 0 <= i < |a| ==> Trim(a[i]) == Trim(b[i])
    ensures LastNonBlank(a) == LastNonBlank(b)
  {
    if a != [] {
      LastNonBlankByTrim(a[..|a| - 1], b[..|b| - 1]);
    }
  }

  /** Blank lines at the end are passed over. */
  lemma {:induction false} BlankLinesAreSkipped(a: seq<string>, b: seq<string>)
    requires forall l :: l in b ==> Blank(l)
    ensures LastNonBlank(a + b) == LastNonBlank(a)
  {
    if b == [] {
      assert a + b == a;
    } else {
      var n := |b| - 1;
      assert b[n] in b;
      TrimOfBlank(b[n]);
      assert (a + b)[..|a + b| - 1] == a + b[..n];
      BlankLinesAreSkipped(a, b[..n]);
    }
  }

  lemma StripCrTrims(s: string)
    ensures Trim(StripCr(s)) == Trim(s)
  {
    if s != "" && s[|s| - 1] == '\r' {
      TrimIgnoresBlankTail(s[..|s| - 1], "\r");
      assert s == s[..|s| - 1] + "\r";
    }
  }

  /** Line terminators and the dropped empty line make no difference to the search. */
  lemma LastLineOfPieces(s: string)
    ensures LastNonBlank(Lines(s)) == LastNonBlank(Split(s, '\n'))
  {
    var parts := Split(s, '\n');
    var n := |parts| - 1;
    var stripped := seq(n, i requires 0 <= i < n => StripCr(parts[i]));
    forall i | 0 <= i < n ensures Trim(stripped[i]) == Trim(parts[i]) {
      StripCrTrims(parts[i]);
    }
    LastNonBlankByTrim(stripped, parts[..n]);
    if parts[n] == "" {
      assert stripped + [] == stripped;
      TrimOfBlank("");
    } else {
      var lines := stripped + [parts[n]];
      LastNonBlankByTrim(lines, parts);
    }
  }

  /** Any logs before a line, and any white space after it, leave the verdict that of the line. */
  lemma LogsAreIgnored(parse: string -> Option<Json>, logs: string, line: string, tail: string)
    requires '\n' !in line && !Blank(line) && Blank(tail)
    ensures FromStdout(parse, logs + "\n" + line + tail) == FromLine(parse, line)
    ensures FromStdout(parse, line + tail) == FromLine(parse, line)
  {
    hide Blank, Split, Lines, LastNonBlank, Trim, Clip;
    LastPiece(line, tail, []);
    LastPiece(line, tail, Split(logs, '\n'));
    assert [] + Split(line + tail, '\n') == Split(line + tail, '\n');
    LastLineOfPieces(line + tail);
    LastLineOfPieces(logs + "\n" + line + tail);
    assert logs + "\n" + line + tail == logs + ['\n'] + (line + tail);
    SplitConcat(logs, line + tail, '\n');
    TrimOfBlank(line);
  }

  lemma LastPiece(line: string, tail: string, before: seq<string>)
    requires '\n' !in line && !Blank(line) && Blank(tail)
    ensures LastNonBlank(before + Split(line + tail, '\n')) == Some(Trim(line))
  {
    hide IsSpace;
    var rest := Split(tail, '\n');
    SplitHead(line, tail, '\n');
    PiecesAreSepFree(tail, '\n');
    forall p | p in rest ensures Blank(p) {
    }
    var full := before + [line + rest[0]];
    assert before + Split(line + tail, '\n') == full + rest[1..];
    BlankLinesAreSkipped(full, rest[1..]);
    TrimIgnoresBlankTail(line, rest[0]);
    TrimOfBlank(line);
  }

  /** There is no output exactly when everything printed is white space. */
  lemma NoOutputIffBlank(parse: string -> Option<Json>, stdout: string)
    ensures FromStdout(parse, stdout) == Err(NoOutput) <==> Blank(stdout)
  {
    LastLineOfPieces(stdout);
    var parts := Split(stdout, '\n');
    if Blank(stdout) {
      PiecesAreSepFree(stdout, '\n');
      BlankLinesAreSkipped([], parts);
      assert [] + parts == parts;
    } else if LastNonBlank(parts).None? {
      NoneMeansBlank(parts);
      JoinChars(parts, '\n');
      JoinSplit(stdout, '\n');
    }
  }

  lemma {:induction false} NoneMeansBlank(lines: seq<string>)
    requires LastNonBlank(lines).None?
    ensures forall l :: l in lines ==> Blank(l)
  {
    if lines != [] {
      TrimOfBlank(lines[|lines| - 1]);
      NoneMeansBlank(lines[..|lines| - 1]);
    }
  }

  // What the answer says about the printed object.

  /** Two kinds of value that leave an optional key unsaid. */
  predicate Unsaid(fields: Fields, key: string) {
    key !in fields || fields[key].Null?
  }

  /** The text of a message as it is forwarded: 500 characters at most, then an ellipsis. */
  function Shown(s: string, limit: nat): string {
    if |s| <= limit then s else s[..limit] + ['\U{2026}']
  }

  predicate GoodMessage(fields: Fields) {
    Unsaid(fields, "message") || fields["message"].Str?
  }

  predicate GoodTestcase(fields: Fields) {
    Unsaid(fields, "testcase")
    || (fields["testcase"].Num? && fields["testcase"].num.PosInt? && 1 <= fields["testcase"].num.n < 0x1_0000_0000)
  }

  /** A rejection without a message, or with a blank one. */
  predicate Unexplained(fields: Fields)
    requires GoodMessage(fields) && "ok" in fields && fields["ok"].Bool?
  {
    !fields["ok"].b && (Unsaid(fields, "message") || Blank(Shown(fields["message"].s, 500)))
  }

  /** `o` is the printed object, key by key. */
  ghost predicate Says(fields: Fields, o: ValidationOutput) {
    && "ok" in fields && fields["ok"] == Bool(o.ok)
    && (if Unsaid(fields, "message") then o.message == None
        else fields["message"].Str? && o.message == Some(Shown(fields["message"].s, 500)))
    && (if Unsaid(fields, "testcase") then o.testcase == None
        else o.testcase.Some? && o.testcase.value > 0 && fields["testcase"] == Num(PosInt(o.testcase.value as int)))
    && (!o.ok ==> o.message.Some? && !Blank(o.message.value))
    && Increasing(LexBelow, o.unknownKeys)
    && (forall k :: k in o.unknownKeys <==> k in fields && k != "ok" && k != "message" && k != "testcase")
  }

  lemma KeysAreDetermined(fields: Fields, keys: seq<string>)
    ensures keys == UnknownKeys(fields) <==>
      Increasing(LexBelow, keys) && forall k :: k in keys <==> k in fields && k != "ok" && k != "message" && k != "testcase"
  {
    LexIsTotal();
    if Increasing(LexBelow, keys) && forall k :: k in keys <==> k in fields && k != "ok" && k != "message" && k != "testcase" {
      IncreasingIsUnique(LexBelow, keys, UnknownKeys(fields));
    }
  }

  lemma PartsSay(fields: Fields)
    ensures DecodeOk(fields).Ok? <==> "ok" in fields && fields["ok"].Bool?
    ensures DecodeMessage(fields).Ok? <==> GoodMessage(fields)
    ensures DecodeMessage(fields).Ok? ==>
      DecodeMessage(fields).value == if Unsaid(fields, "message") then None else Some(Shown(fields["message"].s, 500))
    ensures DecodeTestcase(fields).Ok? <==> GoodTestcase(fields)
    ensures DecodeTestcase(fields).Ok? ==>
      DecodeTestcase(fields).value == if Unsaid(fields, "testcase") then None else Some(fields["testcase"].num.n as u32)
  {
  }

  /** The decoder's whole table, in the order in which it complains. */
  lemma ObjectOutcome(fields: Fields)
    ensures var r := FromObject(fields);
      if "ok" !in fields then r == Err(MissingOk)
      else if !fields["ok"].Bool? then r == Err(WrongType("ok", "true or false"))
      else if !GoodMessage(fields) then r == Err(WrongType("message", "a string"))
      else if !GoodTestcase(fields) then r == Err(WrongType("testcase", "a positive integer"))
      else if Unexplained(fields) then r == Err(MissingMessage)
      else r.Ok? && Says(fields, r.value)
  {
    PartsSay(fields);
    KeysAreDetermined(fields, UnknownKeys(fields));
    if GoodMessage(fields) && !Unsaid(fields, "message") {
      TrimOfBlank(Shown(fields["message"].s, 500));
    }
    hide Trim, UnknownKeys, Blank, Shown, Truncate, LexBelow;
  }

  /** An object says one thing only. */
  lemma SaysOneThing(fields: Fields, o: ValidationOutput)
    requires Says(fields, o)
    ensures FromObject(fields) == Ok(o)
  {
    ObjectOutcome(fields);
    KeysAreDetermined(fields, o.unknownKeys);
    hide FromObject, UnknownKeys, Blank, Shown, LexBelow;
    if FromObject(fields).Ok? {
      KeysAreDetermined(fields, FromObject(fields).value.unknownKeys);
    }
  }

  /** The answer for a printed line is `o` exactly when the line parses to an object that says `o`. */
  lemma AnswerIsThePrintedObject(parse: string -> Option<Json>, logs: string, line: string, tail: string, stdout: string, o: ValidationOutput)
    requires '\n' !in line && !Blank(line) && Blank(tail)
    requires stdout == line + tail || stdout == logs + "\n" + line + tail
    ensures FromStdout(parse, stdout) == Ok(o) <==>
      match parse(Trim(line)) case Some(Obj(fields)) => Says(fields, o) case _ => false
  {
    LogsAreIgnored(parse, logs, line, tail);
    hide FromStdout, FromObject, Says, Trim, Blank, Excerpt;
    match parse(Trim(line))
    case Some(Obj(fields)) =>
      ObjectOutcome(fields);
      if Says(fields, o) {
        SaysOneThing(fields, o);
      }
    case _ =>
  }

  /** ... and each complaint has its own cause: no JSON, no object, then the keys in order. */
  lemma ComplaintsHaveCauses(parse: string -> Option<Json>, logs: string, line: string, tail: string, stdout: string)
    requires '\n' !in line && !Blank(line) && Blank(tail)
    requires stdout == line + tail || stdout == logs + "\n" + line + tail
    ensures var r, shown := FromStdout(parse, stdout), Shown(Trim(line), 120);
      match parse(Trim(line))
      case None => r == Err(NotJson(shown))
      case Some(Obj(fields)) =>
        if "ok" !in fields then r == Err(MissingOk)
        else if !fields["ok"].Bool? then r == Err(WrongType("ok", "true or false"))
        else if !GoodMessage(fields) then r == Err(WrongType("message", "a string"))
        else if !GoodTestcase(fields) then r == Err(WrongType("testcase", "a positive integer"))
        else if Unexplained(fields) then r == Err(MissingMessage)
        else r.Ok?
      case Some(_) => r == Err(NotAnObject(shown))
  {
    LogsAreIgnored(parse, logs, line, tail);
    assert Excerpt(line) == Shown(Trim(line), 120);
    hide FromStdout, FromObject, Says, Trim, Blank, Excerpt, Shown;
    match parse(Trim(line))
    case Some(Obj(fields)) => ObjectOutcome(fields);
    case _ =>
  }

  // What is stored: the output serialised again.

  function StrArray(ss: seq<string>): Json {
    Arr(seq(|ss|, i requires 0 <= i < |ss| => Str(ss[i])))
  }

  /** `Serialize`: absent options and an empty key list are skipped. */
  function ToFields(o: ValidationOutput): Fields {
    map["ok" := Bool(o.ok)]
      + (if o.message.Some? then map["message" := Str(o.message.value)] else map[])
      + (if o.testcase.Some? then map["testcase" := Num(PosInt(o.testcase.value as int))] else map[])
      + (if o.unknownKeys != [] then map["unknown_keys" := StrArray(o.unknownKeys)] else map[])
  }

  /** A cut message is 501 characters long, and still is not cut again. */
  lemma TruncateTwice(s: string)
    ensures Truncate(Truncate(s)) == Truncate(s)
    ensures |Truncate(s)| <= MAX_MESSAGE_CHARS + 1
    ensures Truncate(s) == s <==> |s| <= MAX_MESSAGE_CHARS || (|s| == MAX_MESSAGE_CHARS + 1 && s[MAX_MESSAGE_CHARS] == ELLIPSIS)
  {
    if |s| > MAX_MESSAGE_CHARS {
      assert Truncate(s)[..MAX_MESSAGE_CHARS] == s[..MAX_MESSAGE_CHARS];
      assert |s| == MAX_MESSAGE_CHARS + 1 ==> s == s[..MAX_MESSAGE_CHARS] + [s[MAX_MESSAGE_CHARS]];
    }
  }

  function Strings(items: seq<Json>): Option<seq<string>> {
    if items == [] then Some([])
    else
      var rest := Strings(items[1..]);
      if items[0].Str? && rest.Some? then Some([items[0].s] + rest.value) else None
  }

  /** `Deserialize`, as derived: absent keys are defaulted, other keys ignored, and nothing is cut or refused for its content. */
  function Restore(fields: Fields): Option<ValidationOutput> {
    var message := if Unsaid(fields, "message") then Some(None) else if fields["message"].Str? then Some(Some(fields["message"].s)) else None;
    var testcase :=
      if Unsaid(fields, "testcase") then Some(None)
      else if fields["testcase"].Num? && fields["testcase"].num.PosInt? && fields["testcase"].num.n <= U32_MAX
      then Some(Some(fields["testcase"].num.n as u32))
      else None;
    var unknown :=
      if "unknown_keys" !in fields then Some([])
      else if fields["unknown_keys"].Arr? then Strings(fields["unknown_keys"].items)
      else None;
    if "ok" !in fields || !fields["ok"].Bool? || message.None? || testcase.None? || unknown.None? then None
    else Some(ValidationOutput(fields["ok"].b, message.value, testcase.value, unknown.value))
  }

  lemma {:induction false} StringsOfArray(ss: seq<string>)
    ensures Strings(StrArray(ss).items) == Some(ss)
  {
    if ss != [] {
      StringsOfArray(ss[1..]);
      assert StrArray(ss).items[1..] == StrArray(ss[1..]).items;
      assert [ss[0]] + ss[1..] == ss;
    }
  }

  /** Every output, warnings included, is restored from its stored object. */
  lemma StoredIsRestored(o: ValidationOutput)
    ensures Restore(ToFields(o)) == Some(o)
  {
    StringsOfArray(o.unknownKeys);
    StoredFields(o);
    if o.unknownKeys != [] {
      StoredWarnings(o);
    }
    hide ToFields, Strings, StrArray;
  }

  lemma StoredWarnings(o: ValidationOutput)
    requires o.unknownKeys != []
    ensures "unknown_keys" in ToFields(o) && ToFields(o)["unknown_keys"] == StrArray(o.unknownKeys)
  {
    hide StrArray;
  }

  /** A value the decoder can return. */
  ghost predicate Decoded(o: ValidationOutput) {
    exists fields: Fields :: FromObject(fields) == Ok(o)
  }

  lemma DecodedFacts(o: ValidationOutput)
    requires Decoded(o)
    ensures o.message.Some? ==> Truncate(o.message.value) == o.message.value
    ensures o.testcase.Some? ==> o.testcase.value > 0
    ensures !o.ok ==> o.message.Some? && Trim(o.message.value) != ""
  {
    hide Trim, UnknownKeys, Truncate;
    var fields: Fields :| FromObject(fields) == Ok(o);
    if "message" in fields && fields["message"].Str? {
      TruncateTwice(fields["message"].s);
    }
  }

  lemma DistinctKeys()
    ensures "ok" != "message" && "ok" != "testcase" && "message" != "testcase"
    ensures "unknown_keys" != "ok" && "unknown_keys" != "message" && "unknown_keys" != "testcase"
  {
    assert |"ok"| == 2 && |"message"| == 7 && |"testcase"| == 8 && |"unknown_keys"| == 12;
  }

  /** The stored object, field by field. */
  lemma StoredFields(o: ValidationOutput)
    ensures var f := ToFields(o);
      && "ok" in f && f["ok"] == Bool(o.ok)
      && ("message" in f <==> o.message.Some?) && (o.message.Some? ==> f["message"] == Str(o.message.value))
      && ("testcase" in f <==> o.testcase.Some?) && (o.testcase.Some? ==> f["testcase"] == Num(PosInt(o.testcase.value as int)))
      && ("unknown_keys" in f <==> o.unknownKeys != [])
      && forall k :: k in f ==> k == "ok" || k == "message" || k == "testcase" || k == "unknown_keys"
  {
    DistinctKeys();
  }

  lemma StoredUnknownKeys(o: ValidationOutput)
    ensures UnknownKeys(ToFields(o)) == if o.unknownKeys == [] then [] else ["unknown_keys"]
  {
    LexIsTotal();
    StoredFields(o);
    DistinctKeys();
    hide ToFields, LexBelow;
    var expected := if o.unknownKeys == [] then [] else ["unknown_keys"];
    assert forall k :: k in UnknownKeys(ToFields(o)) <==> k in expected;
    IncreasingIsUnique(LexBelow, UnknownKeys(ToFields(o)), expected);
  }

  lemma StoredParts(o: ValidationOutput)
    requires Decoded(o)
    ensures DecodeOk(ToFields(o)) == Ok(o.ok)
    ensures DecodeMessage(ToFields(o)) == Ok(o.message)
    ensures DecodeTestcase(ToFields(o)) == Ok(o.testcase)
  {
    DecodedFacts(o);
    StoredFields(o);
    hide ToFields, Decoded, Truncate, Trim;
  }

  /** Re-decoding a stored output gives everything back but the list of unknown keys. */
  lemma DecodeOfStored(o: ValidationOutput)
    requires Decoded(o)
    ensures FromObject(ToFields(o)) == Ok(o.(unknownKeys := if o.unknownKeys == [] then [] else ["unknown_keys"]))
  {
    DecodedFacts(o);
    StoredUnknownKeys(o);
    StoredParts(o);
    hide ToFields, Decoded, DecodeOk, DecodeMessage, DecodeTestcase, UnknownKeys, Trim, Truncate;
  }

  /** The stored form reads back as the same output exactly when it warned about no key, or about that very field's name. */
  lemma RoundTripExactly(o: ValidationOutput)
    requires Decoded(o)
    ensures FromObject(ToFields(o)) == Ok(o) <==> o.unknownKeys == [] || o.unknownKeys == ["unknown_keys"]
  {
    hide FromObject, ToFields;
    DecodeOfStored(o);
  }

  // The exit code's say.

  function Reconcile(o: ValidationOutput, exitCode: i32): Result<(), VerdictError> {
    if o.ok == (exitCode == 0) then Ok(()) else Err(ExitCodeMismatch(o.ok, exitCode))
  }

  function VerdictOf(o: ValidationOutput): Verdict {
    if o.ok then Ac else Wa
  }

  lemma StdoutIsDecoded(parse: string -> Option<Json>, stdout: string)
    requires FromStdout(parse, stdout).Ok?
    ensures Decoded(FromStdout(parse, stdout).value)
  {
    hide Trim, FromObject, LastNonBlank, Lines, Excerpt;
  }

  /** Whatever was printed, a reconciled verdict accepts exactly on exit code 0, and a rejection always says why. */
  lemma ExitCodeDecides(parse: string -> Option<Json>, stdout: string, exitCode: i32)
    requires FromStdout(parse, stdout).Ok?
    ensures var o := FromStdout(parse, stdout).value;
      && Reconcile(o, exitCode)
           == (if VerdictOf(o) == (if exitCode == 0 then Ac else Wa) then Ok(()) else Err(ExitCodeMismatch(o.ok, exitCode)))
      && (VerdictOf(o) == Ac || VerdictOf(o) == Wa)
      && (!VerdictOf(o).IsAccepted() ==> o.message.Some? && !Blank(o.message.value))
  {
    hide Trim, FromStdout, Decoded, Blank, Truncate;
    var o := FromStdout(parse, stdout).value;
    StdoutIsDecoded(parse, stdout);
    DecodedFacts(o);
    if o.message.Some? {
      TrimOfBlank(o.message.value);
    }
  }

  // The strict schema, `schemas/verdict.schema.json`.

  /** "integer" in JSON Schema validation 2020-12, section 6.1.1: any number without a fractional part. */
  predicate IsInteger(n: Number) {
    n.Float? ==> n.r == n.r.Floor as real
  }

  predicate AtLeastOne(n: Number) {
    match n case PosInt(k) => k >= 1 case NegInt(i) => i >= 1 case Float(r) => r >= 1.0
  }

  predicate StrictMessage(v: Json) { v.Str? && 1 <= |v.s| <= 500 }

  predicate StrictTestcase(v: Json) { v.Num? && IsInteger(v.num) && AtLeastOne(v.num) }

  /** The object satisfies every rule of the schema. */
  predicate Strict(fields: Fields) {
    && "ok" in fields && fields["ok"].Bool?
    && (forall k :: k in fields ==> k == "ok" || k == "message" || k == "testcase")
    && ("message" in fields ==> StrictMessage(fields["message"]))
    && ("testcase" in fields ==> StrictTestcase(fields["testcase"]))
    && (!fields["ok"].b ==> "message" in fields)
  }

  predicate SmallTestcase(v: Json) { v.Num? && v.num.PosInt? && v.num.n <= U32_MAX }

  /**
   The runtime decoder is not a relaxation of the schema: of the objects the schema accepts it decodes
   exactly those whose `testcase` is written as an integer below 2^32 and whose rejection message is not blank.
   What it does decode of them it decodes without loss.
   */
  lemma StrictObjectsDecodeExactly(fields: Fields)
    requires Strict(fields)
    ensures FromObject(fields).Ok? <==>
      && ("testcase" in fields ==> SmallTestcase(fields["testcase"]))
      && (fields["ok"].b || !Blank(fields["message"].s))
    ensures FromObject(fields).Ok? ==>
      var o := FromObject(fields).value;
      && o.ok == fields["ok"].b && o.unknownKeys == []
      && o.message == (if "message" in fields then Some(fields["message"].s) else None)
      && (o.testcase.Some? <==> "testcase" in fields)
      && (o.testcase.Some? ==> fields["testcase"] == Num(PosInt(o.testcase.value as int)))
  {
    if "message" in fields {
      TrimOfBlank(fields["message"].s);
      assert Truncate(fields["message"].s) == fields["message"].s;
    }
    LexIsTotal();
    HasMember(UnknownKeys(fields));
    hide Trim, Truncate, IsSpace, Blank, UnknownKeys, LexBelow;
  }

  /** A concrete object the schema accepts and the decoder refuses: testcase written as 1.0. */
  lemma StrictObjectRefused()
    ensures var fields: Fields := map["ok" := Bool(true), "testcase" := Num(Float(1.0))];
      Strict(fields) && FromObject(fields) == Err(WrongType("testcase", "a positive integer"))
  {
    DistinctKeys();
  }

  /** Stored outputs obey the schema exactly when they warned about no key and their message was neither cut nor empty. */
  lemma StoredIsStrictExactly(o: ValidationOutput)
    requires Decoded(o)
    ensures Strict(ToFields(o)) <==> o.unknownKeys == [] && (o.message.Some? ==> 1 <= |o.message.value| <= MAX_MESSAGE_CHARS)
  {
    DecodedFacts(o);
    StoredFields(o);
    DistinctKeys();
    hide ToFields, Decoded, Trim, Truncate;
    if o.unknownKeys == [] && o.message.Some? && o.message.value == "" {
      TrimOfBlank("");
    }
  }

  // Where the decoder, the schema and the stored form part, at concrete inputs.

  /** A testcase one above the 32-bit range passes the schema and is refused. */
  lemma LargeTestcaseRefused()
    ensures var fields: Fields := map["ok" := Bool(true), "testcase" := Num(PosInt(U32_MAX + 1))];
      Strict(fields) && FromObject(fields) == Err(WrongType("testcase", "a positive integer"))
  {
    DistinctKeys();
  }

  /** So is a rejection that says only a space. */
  lemma BlankRejectionRefused()
    ensures var fields: Fields := map["ok" := Bool(false), "message" := Str(" ")];
      Strict(fields) && FromObject(fields) == Err(MissingMessage)
  {
    DistinctKeys();
    TrimOfBlank(" ");
    hide Trim;
  }

  const DETAILED: Fields := map["ok" := Bool(true), "detail" := Num(PosInt(1))]
  const WARNED: ValidationOutput := ValidationOutput(true, None, None, ["detail"])

  lemma DetailIsUnknown()
    ensures UnknownKeys(DETAILED) == ["detail"]
  {
    assert |"detail"| == 6 && |"ok"| == 2 && |"message"| == 7 && |"testcase"| == 8;
    LexIsTotal();
    assert forall k :: k in UnknownKeys(DETAILED) <==> k in ["detail"];
    IncreasingIsUnique(LexBelow, UnknownKeys(DETAILED), ["detail"]);
  }

  lemma DetailDecodes()
    ensures FromObject(DETAILED) == Ok(WARNED)
  {
    DetailIsUnknown();
    assert |"detail"| == 6 && |"ok"| == 2 && |"message"| == 7 && |"testcase"| == 8;
    hide UnknownKeys;
  }

  /** An acceptance with a key the judge does not know decodes, and its stored form decodes to something else. */
  lemma StoredOutputChanges()
    ensures FromObject(DETAILED) == Ok(WARNED)
    ensures FromObject(ToFields(WARNED)) == Ok(WARNED.(unknownKeys := ["unknown_keys"])) != FromObject(DETAILED)
  {
    DetailDecodes();
    hide FromObject, ToFields;
    assert Decoded(WARNED);
    DecodeOfStored(WARNED);
    assert "detail" != "unknown_keys" by {
      assert |"detail"| == 6 && |"unknown_keys"| == 12;
    }
  }

  /** A rejection whose message is this many times the letter x. */
  function Shouting(n: nat): Fields {
    map["ok" := Bool(false), "message" := Str(seq(n, _ => 'x'))]
  }

  lemma ShoutingDecodes()
    ensures FromObject(Shouting(MAX_MESSAGE_CHARS + 1))
         == Ok(ValidationOutput(false, Some(Truncate(seq(MAX_MESSAGE_CHARS + 1, _ => 'x'))), None, []))
  {
    DistinctKeys();
    var cut, fields := Truncate(seq(MAX_MESSAGE_CHARS + 1, _ => 'x')), Shouting(MAX_MESSAGE_CHARS + 1);
    assert cut[0] == 'x' && !IsSpace(cut[0]) && cut[0] in cut;
    TrimOfBlank(cut);
    KeysAreDetermined(fields, []);
    hide UnknownKeys, Trim, Truncate, Blank, LexBelow, DecodeMessage, DecodeTestcase;
    assert DecodeMessage(fields) == Ok(Some(cut)) && DecodeTestcase(fields) == Ok(None) by {
      PartsSay(fields);
    }
  }

  /** A message of 501 characters is cut, and the stored form breaks the schema's own limit. */
  lemma CutMessageBreaksSchema()
    ensures var r := FromObject(Shouting(MAX_MESSAGE_CHARS + 1));
      r.Ok? && r.value.unknownKeys == [] && !Strict(ToFields(r.value))
  {
    ShoutingDecodes();
    var o := FromObject(Shouting(MAX_MESSAGE_CHARS + 1)).value;
    assert |o.message.value| == MAX_MESSAGE_CHARS + 1;
    hide FromObject, ToFields, Strict, Truncate, Shouting;
    StoredIsStrictExactly(o);
  }

  // Bytes.

  type Byte = b: int | 0 <= b < 256

  /** UTF-8 of one character, section 3 of RFC 3629. */
  function Utf8Char(c: char): (r: seq<Byte>)
    ensures 1 <= |r| <= 4
    ensures !Continuation(r[0])
  {
    var n := c as int;
    if n < 0x80 then [n]
    else if n < 0x800 then [0xC0 + n / 0x40, 0x80 + n % 0x40]
    else if n < 0x1_0000 then [0xE0 + n / 0x1000, 0x80 + n / 0x40 % 0x40, 0x80 + n % 0x40]
    else [0xF0 + n / 0x4_0000, 0x80 + n / 0x1000 % 0x40, 0x80 + n / 0x40 % 0x40, 0x80 + n % 0x40]
  }

  predicate Continuation(b: Byte) {
    0x80 <= b < 0xC0
  }

  function Utf8(s: string): seq<Byte> {
    if s == "" then [] else Utf8Char(s[0]) + Utf8(s[1..])
  }

  /** `char_indices().nth(k)`: the byte offset of the k-th character. */
  function Offset(s: string, k: nat): nat
    requires k <= |s|
  {
    if k == 0 then 0 else |Utf8Char(s[0])| + Offset(s[1..], k - 1)
  }

  lemma {:induction false} Utf8Concat(a: string, b: string)
    ensures Utf8(a + b) == Utf8(a) + Utf8(b)
  {
    if a == "" {
      assert a + b == b;
    } else {
      assert (a + b)[1..] == a[1..] + b;
      Utf8Concat(a[1..], b);
      assert Utf8Char(a[0]) + (Utf8(a[1..]) + Utf8(b)) == Utf8(a) + Utf8(b);
    }
  }

  lemma {:induction false} OffsetIsPrefix(s: string, k: nat)
    requires k <= |s|
    ensures Offset(s, k) == |Utf8(s[..k])| <= 4 * k
    ensures Offset(s, k) <= |Utf8(s)| && Utf8(s)[..Offset(s, k)] == Utf8(s[..k])
    ensures k < |s| ==> Offset(s, k) < |Utf8(s)| && !Continuation(Utf8(s)[Offset(s, k)])
  {
    if k > 0 {
      OffsetIsPrefix(s[1..], k - 1);
      assert s[..k][1..] == s[1..][..k - 1];
    }
    Utf8Concat(s[..k], s[k..]);
    assert s == s[..k] + s[k..];
  }

  /** The byte slice `truncate` takes is cut between two characters, and the result fits 2003 bytes. */
  lemma TruncateCutsOnBoundary(s: string)
    ensures |Utf8(Truncate(s))| <= 4 * MAX_MESSAGE_CHARS + 3
    ensures |s| > MAX_MESSAGE_CHARS ==>
      var cut := Offset(s, MAX_MESSAGE_CHARS);
      && cut < |Utf8(s)| && !Continuation(Utf8(s)[cut])
      && Utf8(Truncate(s)) == Utf8(s)[..cut] + [0xE2, 0x80, 0xA6]
  {
    if |s| > MAX_MESSAGE_CHARS {
      OffsetIsPrefix(s, MAX_MESSAGE_CHARS);
      Utf8Concat(s[..MAX_MESSAGE_CHARS], [ELLIPSIS]);
      assert Utf8([ELLIPSIS]) == [0xE2, 0x80, 0xA6] + Utf8("");
    } else {
      OffsetIsPrefix(s, |s|);
      assert s[..|s|] == s;
    }
  }

  // The order of strings is the order of their bytes, which is what the program compares.

  /** At position `n` the bytes first differ, and the smaller is in `a`, or `a` ends. */
  ghost predicate ByteDifference(a: seq<Byte>, b: seq<Byte>, n: nat) {
    && n <= |a| && n < |b| && a[..n] == b[..n]
    && (n == |a| || a[n] < b[n])
  }

  ghost predicate BytesBelow(a: seq<Byte>, b: seq<Byte>) {
    exists n: nat :: ByteDifference(a, b, n)
  }

  lemma BytesAsymmetric(a: seq<Byte>, b: seq<Byte>)
    ensures !(BytesBelow(a, b) && BytesBelow(b, a))
  {
    forall m: nat, n: nat ensures !(ByteDifference(a, b, m) && ByteDifference(b, a, n)) {
      assert m < n <= |a| && n <= |b| ==> a[..n][m] == a[m] && b[..n][m] == b[m];
      assert n < m <= |a| && m <= |b| ==> a[..m][n] == a[n] && b[..m][n] == b[n];
    }
  }

  /** All but the last, and the last, of the base-64 digits of a number. */
  function Top(n: nat): nat { n / 0x40 }

  function Low(n: nat): nat { n % 0x40 }

  /** The bytes of a character are its base-64 digits, the first of them above a mark that grows with their number. */
  lemma Digits(c: char)
    ensures var n, r := c as int, Utf8Char(c);
      && (|r| == 1 ==> r[0] == n < 0x80)
      && (|r| == 2 ==> r[0] == 0xC0 + Top(n) && r[1] == 0x80 + Low(n) && 0x80 <= n < 0x800)
      && (|r| == 3 ==> r[0] == 0xE0 + Top(Top(n)) && r[1] == 0x80 + Low(Top(n)) && r[2] == 0x80 + Low(n) && 0x800 <= n < 0x1_0000)
      && (|r| == 4 ==> r[0] == 0xF0 + Top(Top(Top(n))) && r[1] == 0x80 + Low(Top(Top(n))) && r[2] == 0x80 + Low(Top(n))
                       && r[3] == 0x80 + Low(n) && 0x1_0000 <= n)
  {
    var n := c as int;
    assert n / 0x1000 == n / 0x40 / 0x40 && n / 0x4_0000 == n / 0x40 / 0x40 / 0x40;
  }

  /** Longer encodings are of larger characters, and start with a larger byte. */
  lemma LengthOrder(c: char, d: char)
    requires c < d
    ensures |Utf8Char(c)| <= |Utf8Char(d)|
    ensures |Utf8Char(c)| < |Utf8Char(d)| ==> Utf8Char(c)[0] < Utf8Char(d)[0]
  {
    Digits(c);
    Digits(d);
    hide Utf8Char;
    var m, n := c as int, d as int;
    assert m < 0x800 ==> m / 0x40 < 0x20;
    assert m < 0x1_0000 ==> m / 0x40 / 0x40 < 0x10;
    assert |Utf8Char(c)| > 1 ==> 0x80 <= m;
  }

  /** The most significant differing digit decides. */
  lemma DigitOrder(m: nat, n: nat)
    requires m <= n
    ensures Top(m) <= Top(n) && (Top(m) == Top(n) && m != n ==> Low(m) < Low(n))
    ensures m == n <==> Top(m) == Top(n) && Low(m) == Low(n)
  {
  }

  ghost predicate DecidedAt(a: seq<Byte>, b: seq<Byte>, k: nat) {
    k < |a| && k < |b| && a[..k] == b[..k] && a[k] < b[k]
  }

  lemma ThreeBytesOrder(c: char, d: char) returns (k: nat)
    requires c < d && |Utf8Char(c)| == |Utf8Char(d)| <= 3
    ensures DecidedAt(Utf8Char(c), Utf8Char(d), k)
  {
    Digits(c);
    Digits(d);
    var a, b, m, n := Utf8Char(c), Utf8Char(d), c as int, d as int;
    DigitOrder(m, n);
    DigitOrder(Top(m), Top(n));
    hide Utf8Char, Top, Low;
    if |a| == 3 && Top(Top(m)) != Top(Top(n)) {
      k := 0;
    } else if |a| > 1 && Top(m) != Top(n) {
      k := |a| - 2;
      assert |a| == 3 ==> a[..1] == [a[0]] && b[..1] == [b[0]];
    } else {
      k := |a| - 1;
      assert |a| == 2 ==> a[..1] == [a[0]] && b[..1] == [b[0]];
      assert |a| == 3 ==> a[..2] == [a[0], a[1]] && b[..2] == [b[0], b[1]];
    }
  }

  lemma FourBytesOrder(c: char, d: char) returns (k: nat)
    requires c < d && |Utf8Char(c)| == |Utf8Char(d)| == 4
    ensures DecidedAt(Utf8Char(c), Utf8Char(d), k)
  {
    Digits(c);
    Digits(d);
    var a, b, m, n := Utf8Char(c), Utf8Char(d), c as int, d as int;
    DigitOrder(m, n);
    DigitOrder(Top(m), Top(n));
    DigitOrder(Top(Top(m)), Top(Top(n)));
    hide Utf8Char, Top, Low;
    if Top(Top(Top(m))) != Top(Top(Top(n))) {
      k := 0;
    } else if Top(Top(m)) != Top(Top(n)) {
      k := 1;
      assert a[..1] == [a[0]] && b[..1] == [b[0]];
    } else if Top(m) != Top(n) {
      k := 2;
      assert a[..2] == [a[0], a[1]] && b[..2] == [b[0], b[1]];
    } else {
      k := 3;
      assert a[..3] == [a[0], a[1], a[2]] && b[..3] == [b[0], b[1], b[2]];
    }
  }

  /** The smaller character has the smaller encoding, decided inside the shorter of the two. */
  lemma CharOrder(c: char, d: char) returns (k: nat)
    requires c < d
    ensures DecidedAt(Utf8Char(c), Utf8Char(d), k)
  {
    LengthOrder(c, d);
    if |Utf8Char(c)| < |Utf8Char(d)| {
      k := 0;
    } else if |Utf8Char(c)| == 4 {
      k := FourBytesOrder(c, d);
    } else {
      k := ThreeBytesOrder(c, d);
    }
    hide Utf8Char;
  }

  lemma {:induction false} BelowInBytes(a: string, b: string)
    requires LexBelow(a, b)
    ensures BytesBelow(Utf8(a), Utf8(b))
  {
    if a == "" {
      assert ByteDifference(Utf8(a), Utf8(b), 0);
    } else if a[0] != b[0] {
      var n := CharOrder(a[0], b[0]);
      HeadsDiffer(Utf8Char(a[0]), Utf8Char(b[0]), Utf8(a[1..]), Utf8(b[1..]), n);
    } else {
      BelowInBytes(a[1..], b[1..]);
      HeadsAgree(Utf8Char(a[0]), Utf8(a[1..]), Utf8(b[1..]));
    }
    hide Utf8Char, BytesBelow;
  }

  lemma HeadsDiffer(a: seq<Byte>, b: seq<Byte>, x: seq<Byte>, y: seq<Byte>, n: nat)
    requires DecidedAt(a, b, n)
    ensures BytesBelow(a + x, b + y)
  {
    assert (a + x)[..n] == a[..n] && (b + y)[..n] == b[..n];
    assert ByteDifference(a + x, b + y, n);
  }

  lemma HeadsAgree(head: seq<Byte>, x: seq<Byte>, y: seq<Byte>)
    requires BytesBelow(x, y)
    ensures BytesBelow(head + x, head + y)
  {
    var n: nat :| ByteDifference(x, y, n);
    assert (head + x)[..|head| + n] == head + x[..n] && (head + y)[..|head| + n] == head + y[..n];
    assert ByteDifference(head + x, head + y, |head| + n);
  }

  /** Comparing code points and comparing UTF-8 bytes are the same order. */
  lemma TextOrderIsByteOrder(a: string, b: string)
    ensures LexBelow(a, b) <==> BytesBelow(Utf8(a), Utf8(b))
  {
    if LexBelow(a, b) {
      BelowInBytes(a, b);
    } else {
      LexTrichotomy(a, b);
      if a != b {
        BelowInBytes(b, a);
        BytesAsymmetric(Utf8(a), Utf8(b));
      } else {
        BytesAsymmetric(Utf8(a), Utf8(a));
      }
    }
  }
}
