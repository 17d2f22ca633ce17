/** From program logs to events: the line patterns, the invoke stack, and the runtime's printer
    that the parser inverts. */
module Logs {
  import opened Common
  import opened Decimal
  import opened Program

  const PROGRAM := "Program "
  const DATA := "Program data: "
  const INVOKE := " invoke ["
  const SUCCESS := " success"
  const FAILED := " failed"

  predicate IsBase58(c: char) {
    || '1' <= c <= '9'
    || ('A' <= c <= 'Z' && c != 'I' && c != 'O')
    || ('a' <= c <= 'z' && c != 'l')
  }

  // `[1-9A-HJ-NP-Za-km-z]{32,44}`
  predicate IsAddress(s: string) {
    && 32 <= |s| <= 44
    && forall i :: 0 <= i < |s| ==> IsBase58(s[i])
  }

  // How far a greedy base58 match reaches. What follows an address in a pattern is a space, so no
  // shorter match can succeed.
  function Base58Run(s: string): (n: nat)
    ensures n <= |s|
    ensures forall i :: 0 <= i < n ==> IsBase58(s[i])
    ensures n < |s| ==> !IsBase58(s[n])
  {
    if s == [] || !IsBase58(s[0]) then 0 else 1 + Base58Run(s[1..])
  }

  // The address a line starts with after `Program `, and what follows it.
  function Addressed(line: string): Option<(Address, string)> {
    if !(PROGRAM <= line) then None else
    var rest := line[|PROGRAM|..];
    var n := Base58Run(rest);
    if 32 <= n <= 44 then Some((rest[..n], rest[n..])) else None
  }

  datatype Line = Invoke(program: Address) | Return | Data(payload: string) | Other

  predicate IsInvokeTail(tail: string) {
    && INVOKE <= tail
    && |tail| >= |INVOKE| + 2
    && tail[|tail| - 1] == ']'
    && AllDigits(tail[|INVOKE|..|tail| - 1])
  }

  function Classify(line: string): Line {
    var addressed := Addressed(line);
    if addressed.Some? && IsInvokeTail(addressed.value.1) then Invoke(addressed.value.0)
    else if addressed.Some? && (SUCCESS <= addressed.value.1 || FAILED <= addressed.value.1) then Return
    else if DATA <= line then Data(line[|DATA|..])
    else Other
  }

  // What decoding the bytes of a data line gives: an event of the program, an unknown
  // discriminator, or a decoder that throws.
  datatype Decoded = Event(event: ProgramEvent) | Unknown | Broken

  // The address of the program whose events are read, and the decoder of its data lines.
  datatype Reader = Reader(own: Address, decode: string -> Decoded)

  datatype ParseError = BrokenEvent

  type Events = Result<seq<ProgramEvent>, ParseError>

  function Then(first: Events, rest: Events): Events {
    if first.Err? then first else if rest.Err? then rest else Ok(first.value + rest.value)
  }

  function DecodeOne(reader: Reader, payload: string): Events {
    match reader.decode(payload)
    case Event(e) => Ok([e])
    case Unknown => Ok([])
    case Broken => Err(BrokenEvent)
  }

  function DecodeAll(reader: Reader, payloads: seq<string>): Events {
    if payloads == [] then Ok([]) else Then(DecodeOne(reader, payloads[0]), DecodeAll(reader, payloads[1..]))
  }

  predicate OnTop(stack: seq<Address>, program: Address) {
    stack != [] && stack[|stack| - 1] == program
  }

  function Popped(stack: seq<Address>): seq<Address> {
    if stack == [] then [] else stack[..|stack| - 1]
  }

  // The events of the remaining lines under an invoke stack.
  function ParseLines(reader: Reader, lines: seq<Line>, stack: seq<Address>): Events {
    if lines == [] then Ok([])
    else match lines[0]
      case Invoke(program) => ParseLines(reader, lines[1..], stack + [program])
      case Return => ParseLines(reader, lines[1..], Popped(stack))
      case Data(payload) =>
        if OnTop(stack, reader.own) then Then(DecodeOne(reader, payload), ParseLines(reader, lines[1..], stack))
        else ParseLines(reader, lines[1..], stack)
      case Other => ParseLines(reader, lines[1..], stack)
  }

  function ClassifyAll(logs: seq<string>): seq<Line> {
    seq(|logs|, i requires 0 <= i < |logs| => Classify(logs[i]))
  }

  function Parse(reader: Reader, logs: seq<string>): Events {
    ParseLines(reader, ClassifyAll(logs), [])
  }

  lemma ThenUnit(events: Events)
    ensures Then(Ok([]), events) == events == Then(events, Ok([]))
  {
    if events.Ok? {
      assert [] + events.value == events.value == events.value + [];
    }
  }

  method ParseEvents(reader: Reader, logs: seq<string>) returns (r: Events)
    ensures r == Parse(reader, logs)
  {
    var stack: seq<Address> := [];
    var events: seq<ProgramEvent> := [];
    ghost var lines := ClassifyAll(logs);
    assert lines[0..] == lines;
    ThenUnit(Parse(reader, logs));
    for i := 0 to |logs|
      invariant Parse(reader, logs) == Then(Ok(events), ParseLines(reader, lines[i..], stack))
    {
      assert lines[i..][1..] == lines[i + 1..];
      ghost var rest := ParseLines(reader, lines[i + 1..], stack);
      ThenUnit(rest);
      match Classify(logs[i]) {
        case Invoke(program) =>
          stack := stack + [program];
        case Return =>
          if stack != [] { stack := stack[..|stack| - 1]; }
        case Data(payload) =>
          if OnTop(stack, reader.own) {
            ThenAssoc(Ok(events), DecodeOne(reader, payload), rest);
            match reader.decode(payload) {
              case Event(e) =>
                events := events + [e];
              case Unknown =>
              case Broken =>
                return Err(BrokenEvent);
            }
          }
        case Other =>
      }
    }
    ThenUnit(Ok(events));
    r := Ok(events);
  }

  /** What the runtime logs while a transaction runs: messages, compute reports, return data, data
      lines and nested invocations that succeed or fail. */
  datatype Trace =
    | End
    | Log(message: string, next: Trace)
    | Consumed(used: nat, budget: nat, next: Trace)
    | ReturnData(payload: string, next: Trace)
    | Emit(payload: string, next: Trace)
    | Frame(program: Address, body: Trace, failure: Option<string>, next: Trace)

  predicate WellFormed(t: Trace) {
    match t
    case End => true
    case Log(_, next) => WellFormed(next)
    case Consumed(_, _, next) => WellFormed(next)
    case ReturnData(_, next) => WellFormed(next)
    case Emit(_, next) => WellFormed(next)
    case Frame(program, body, _, next) => IsAddress(program) && WellFormed(body) && WellFormed(next)
  }

  function InvokeLine(program: Address, depth: nat): string {
    PROGRAM + program + (INVOKE + Digits(depth) + "]")
  }

  function ReturnLine(program: Address, failure: Option<string>): string {
    PROGRAM + program + (if failure.None? then SUCCESS else FAILED + ": " + failure.value)
  }

  function ConsumedLine(program: Address, used: nat, budget: nat): string {
    PROGRAM + program + (" consumed " + Digits(used) + " of " + Digits(budget) + " compute units")
  }

  const LOG := "Program log: "
  const RETURN_DATA := "Program return: "

  // The lines of a trace that runs inside `program`, `depth` invocations deep.
  function Render(t: Trace, program: Address, depth: nat): seq<string> {
    match t
    case End => []
    case Log(message, next) => [LOG + message] + Render(next, program, depth)
    case Consumed(used, budget, next) => [ConsumedLine(program, used, budget)] + Render(next, program, depth)
    case ReturnData(payload, next) => [RETURN_DATA + payload] + Render(next, program, depth)
    case Emit(payload, next) => [DATA + payload] + Render(next, program, depth)
    case Frame(callee, body, failure, next) =>
      [InvokeLine(callee, depth + 1)] + Render(body, callee, depth + 1)
      + [ReturnLine(callee, failure)] + Render(next, program, depth)
  }

  // The data that frames of the program `own` emit, in emission order.
  function OwnPayloads(t: Trace, program: Address, own: Address): seq<string> {
    match t
    case End => []
    case Log(_, next) => OwnPayloads(next, program, own)
    case Consumed(_, _, next) => OwnPayloads(next, program, own)
    case ReturnData(_, next) => OwnPayloads(next, program, own)
    case Emit(payload, next) => (if program == own then [payload] else []) + OwnPayloads(next, program, own)
    case Frame(callee, body, _, next) => OwnPayloads(body, callee, own) + OwnPayloads(next, program, own)
  }

  // A greedy run ends where the first other character is.
  lemma RunStops(s: string, n: nat)
    requires n < |s| && !IsBase58(s[n])
    requires forall i :: 0 <= i < n ==> IsBase58(s[i])
    ensures Base58Run(s) == n
  {
    var run := Base58Run(s);
    assert !(n < run) && !(run < n);
  }

  lemma AddressedLine(program: Address, tail: string)
    requires IsAddress(program) && tail != [] && tail[0] == ' '
    ensures Addressed(PROGRAM + program + tail) == Some((program, tail))
  {
    var line := PROGRAM + program + tail;
    var rest := line[|PROGRAM|..];
    assert rest == program + tail;
    RunStops(rest, |program|);
    assert rest[..|program|] == program && rest[|program|..] == tail;
  }

  // A short word that a colon ends is no address, so neither a log message nor a data line can
  // pose as an invocation or a return, whatever the message says.
  lemma NotAddressed(word: string, rest: string)
    requires 0 < |word| < 32 && word[|word| - 1] == ':'
    ensures Addressed(PROGRAM + word + rest).None?
  {
    var tail := (PROGRAM + word + rest)[|PROGRAM|..];
    assert tail == word + rest;
    assert tail[|word| - 1] == ':';
  }

  lemma InvokeTail(depth: string)
    requires depth != [] && AllDigits(depth)
    ensures IsInvokeTail(INVOKE + depth + "]")
  {
    var tail := INVOKE + depth + "]";
    assert tail[|INVOKE|..|tail| - 1] == depth;
  }

  /** Every line of the anchored form is read as an invocation of its address. */
  lemma InvocationIsRead(program: Address, depth: string)
    requires IsAddress(program) && depth != [] && AllDigits(depth)
    ensures Classify("Program " + program + (" invoke [" + depth + "]")) == Invoke(program)
  {
    InvokeTail(depth);
    AddressedLine(program, INVOKE + depth + "]");
  }

  /** And only lines of that form are: an address, some digits, nothing after the bracket. */
  lemma InvocationHasForm(line: string) returns (depth: string)
    requires Classify(line).Invoke?
    ensures depth != [] && AllDigits(depth) && IsAddress(Classify(line).program)
    ensures line == "Program " + Classify(line).program + (" invoke [" + depth + "]")
  {
    hide Base58Run, AllDigits;
    var program, tail := Addressed(line).value.0, Addressed(line).value.1;
    depth := tail[|INVOKE|..|tail| - 1];
    assert tail == INVOKE + depth + "]";
    assert line == PROGRAM + line[|PROGRAM|..];
  }

  /** An address has 32 to 44 characters, letters and digits without the four that look alike. */
  lemma AddressIs(s: string)
    ensures IsAddress(s) <==> 32 <= |s| <= 44 && forall i :: 0 <= i < |s| ==>
              ('0' <= s[i] <= '9' || 'A' <= s[i] <= 'Z' || 'a' <= s[i] <= 'z') && s[i] !in "0OIl"
  {
    assert "0OIl" == ['0', 'O', 'I', 'l'];
  }

  /** The other lines of the runtime: a return of an invoked program, whether it succeeded or failed, and
      a data line; messages, return data and compute reports are none of them. */
  lemma LinesAreRead(program: Address, rest: string)
    requires IsAddress(program)
    ensures Classify("Program " + program + " success") == Return
    ensures Classify("Program " + program + (" failed: " + rest)) == Return
    ensures Classify("Program data: " + rest) == Data(rest)
    ensures Classify("Program log: " + rest) == Other
    ensures Classify("Program return: " + rest) == Other
  {
    hide Classify;
    ClassifyReturn(program, None);
    ClassifyReturn(program, Some(rest));
    assert " failed: " + rest == FAILED + ": " + rest;
    ClassifyData(rest);
    ClassifyLog(rest);
    ClassifyReturnData(rest);
  }

  lemma ClassifyLog(message: string)
    ensures Classify(LOG + message) == Other
  {
    NotAddressed("log:", " " + message);
    assert LOG + message == PROGRAM + "log:" + (" " + message);
    assert (LOG + message)[8] == 'l';
  }

  lemma ClassifyReturnData(payload: string)
    ensures Classify(RETURN_DATA + payload) == Other
  {
    NotAddressed("return:", " " + payload);
    assert RETURN_DATA + payload == PROGRAM + "return:" + (" " + payload);
    assert (RETURN_DATA + payload)[8] == 'r';
  }

  lemma ClassifyData(payload: string)
    ensures Classify(DATA + payload) == Data(payload)
  {
    NotAddressed("data:", " " + payload);
    assert DATA + payload == PROGRAM + "data:" + (" " + payload);
  }

  // A line that names an address is read by what follows it.
  lemma ClassifyTail(program: Address, tail: string)
    requires IsAddress(program) && tail != [] && tail[0] == ' '
    ensures Classify(PROGRAM + program + tail)
            == if IsInvokeTail(tail) then Invoke(program)
               else if SUCCESS <= tail || FAILED <= tail then Return else Other
  {
    AddressedLine(program, tail);
    var line := PROGRAM + program + tail;
    assert line[12] == program[4] != DATA[12];
  }

  lemma ClassifyReturn(program: Address, failure: Option<string>)
    requires IsAddress(program)
    ensures Classify(ReturnLine(program, failure)) == Return
  {
    var tail := if failure.None? then SUCCESS else FAILED + ": " + failure.value;
    assert tail[0] == ' ' && tail[1] != INVOKE[1];
    if failure.Some? {
      assert tail == FAILED + (": " + failure.value);
    }
    ClassifyTail(program, tail);
  }

  lemma ClassifyConsumed(program: Address, used: nat, budget: nat)
    requires IsAddress(program)
    ensures Classify(ConsumedLine(program, used, budget)) == Other
  {
    var tail := " consumed " + Digits(used) + " of " + Digits(budget) + " compute units";
    assert tail[0] == ' ' && tail[1] == 'c';
    assert INVOKE[1] != 'c' && SUCCESS[1] != 'c' && FAILED[1] != 'c';
    ClassifyTail(program, tail);
  }

  lemma ClassifyInvoke(program: Address, depth: nat)
    requires IsAddress(program)
    ensures Classify(InvokeLine(program, depth)) == Invoke(program)
  {
    InvocationIsRead(program, Digits(depth));
  }

  lemma ClassifyFirst(line: string, rest: seq<string>)
    ensures ClassifyAll([line] + rest) == [Classify(line)] + ClassifyAll(rest)
  {
  }

  lemma ClassifyJoin(a: seq<string>, b: seq<string>)
    ensures ClassifyAll(a + b) == ClassifyAll(a) + ClassifyAll(b)
  {
  }

  lemma ClassifyFrame(invoke: string, inside: seq<string>, ret: string, after: seq<string>)
    ensures ClassifyAll([invoke] + inside + [ret] + after)
            == [Classify(invoke)] + ClassifyAll(inside) + [Classify(ret)] + ClassifyAll(after)
  {
    assert ClassifyAll([invoke]) == [Classify(invoke)] && ClassifyAll([ret]) == [Classify(ret)];
    hide ClassifyAll, Classify;
    ClassifyJoin([invoke] + inside + [ret], after);
    ClassifyJoin([invoke] + inside, [ret]);
    ClassifyJoin([invoke], inside);
  }

  // The lines of a trace as the parser sees them.
  function Tokens(t: Trace): seq<Line> {
    match t
    case End => []
    case Log(_, next) => [Other] + Tokens(next)
    case Consumed(_, _, next) => [Other] + Tokens(next)
    case ReturnData(_, next) => [Other] + Tokens(next)
    case Emit(payload, next) => [Data(payload)] + Tokens(next)
    case Frame(callee, body, _, next) => [Invoke(callee)] + Tokens(body) + [Return] + Tokens(next)
  }

  // A compute report names the running program, so none is printed outside every invocation.
  predicate HasConsumed(t: Trace) {
    match t
    case End => false
    case Log(_, next) => HasConsumed(next)
    case Consumed(_, _, _) => true
    case ReturnData(_, next) => HasConsumed(next)
    case Emit(_, next) => HasConsumed(next)
    case Frame(_, _, _, next) => HasConsumed(next)
  }

  lemma {:induction false} TokensOfRender(t: Trace, program: Address, depth: nat)
    requires WellFormed(t) && (HasConsumed(t) ==> IsAddress(program))
    ensures ClassifyAll(Render(t, program, depth)) == Tokens(t)
    decreases t
  {
    match t {
      case End =>
      case Log(message, next) =>
        ClassifyLog(message);
        TokensOfRender(next, program, depth);
        ClassifyFirst(LOG + message, Render(next, program, depth));
      case Consumed(used, budget, next) =>
        ClassifyConsumed(program, used, budget);
        TokensOfRender(next, program, depth);
        ClassifyFirst(ConsumedLine(program, used, budget), Render(next, program, depth));
      case ReturnData(payload, next) =>
        ClassifyReturnData(payload);
        TokensOfRender(next, program, depth);
        ClassifyFirst(RETURN_DATA + payload, Render(next, program, depth));
      case Emit(payload, next) =>
        ClassifyData(payload);
        TokensOfRender(next, program, depth);
        ClassifyFirst(DATA + payload, Render(next, program, depth));
      case Frame(callee, body, failure, next) =>
        ClassifyInvoke(callee, depth + 1);
        ClassifyReturn(callee, failure);
        TokensOfRender(body, callee, depth + 1);
        TokensOfRender(next, program, depth);
        ClassifyFrame(InvokeLine(callee, depth + 1), Render(body, callee, depth + 1),
                      ReturnLine(callee, failure), Render(next, program, depth));
    }
  }

  lemma ThenAssoc(a: Events, b: Events, c: Events)
    ensures Then(Then(a, b), c) == Then(a, Then(b, c))
  {
    if a.Ok? && b.Ok? && c.Ok? {
      assert (a.value + b.value) + c.value == a.value + (b.value + c.value);
    }
  }

  lemma {:induction false} DecodeAppend(reader: Reader, a: seq<string>, b: seq<string>)
    ensures DecodeAll(reader, a + b) == Then(DecodeAll(reader, a), DecodeAll(reader, b))
    decreases |a|
  {
    ThenUnit(DecodeAll(reader, b));
    if a == [] {
      assert a + b == b;
    } else {
      assert (a + b)[1..] == a[1..] + b;
      DecodeAppend(reader, a[1..], b);
      ThenAssoc(DecodeOne(reader, a[0]), DecodeAll(reader, a[1..]), DecodeAll(reader, b));
    }
  }

  // The events among data lines; what nobody knows is passed over.
  function Known(reader: Reader, payloads: seq<string>): seq<ProgramEvent> {
    if payloads == [] then []
    else (match reader.decode(payloads[0]) case Event(e) => [e] case _ => []) + Known(reader, payloads[1..])
  }

  /** Decoding a list of data lines fails exactly when one of them is a broken event, and otherwise gives
      the events among them in order. */
  lemma {:induction false} DecodeAllIs(reader: Reader, payloads: seq<string>)
    ensures DecodeAll(reader, payloads)
            == if exists p :: p in payloads && reader.decode(p).Broken? then Err(BrokenEvent) else Ok(Known(reader, payloads))
    decreases |payloads|
  {
    if payloads != [] {
      DecodeAllIs(reader, payloads[1..]);
      assert payloads == [payloads[0]] + payloads[1..];
      assert forall p :: p in payloads <==> p == payloads[0] || p in payloads[1..];
    }
  }

  lemma FrameLines(reader: Reader, program: Address, rest: seq<Line>, stack: seq<Address>)
    ensures ParseLines(reader, [Invoke(program)] + rest, stack) == ParseLines(reader, rest, stack + [program])
    ensures ParseLines(reader, [Return] + rest, stack) == ParseLines(reader, rest, Popped(stack))
  {
    assert ([Invoke(program)] + rest)[1..] == rest;
    assert ([Return] + rest)[1..] == rest;
  }

  lemma DataLine(reader: Reader, payload: string, rest: seq<Line>, stack: seq<Address>)
    ensures ParseLines(reader, [Data(payload)] + rest, stack)
            == if OnTop(stack, reader.own) then Then(DecodeOne(reader, payload), ParseLines(reader, rest, stack))
               else ParseLines(reader, rest, stack)
  {
    assert ([Data(payload)] + rest)[1..] == rest;
  }

  lemma OtherLine(reader: Reader, rest: seq<Line>, stack: seq<Address>)
    ensures ParseLines(reader, [Other] + rest, stack) == ParseLines(reader, rest, stack)
  {
    assert ([Other] + rest)[1..] == rest;
  }

  // What this program's payloads come to, before what is read after them.
  function Read(reader: Reader, payloads: seq<string>, after: Events): Events {
    Then(DecodeAll(reader, payloads), after)
  }

  lemma ReadNothing(reader: Reader, after: Events)
    ensures Read(reader, [], after) == after
  {
    ThenUnit(after);
  }

  lemma ReadOne(reader: Reader, payload: string, rest: seq<string>, after: Events)
    ensures Read(reader, [payload] + rest, after) == Then(DecodeOne(reader, payload), Read(reader, rest, after))
  {
    assert ([payload] + rest)[1..] == rest;
    ThenAssoc(DecodeOne(reader, payload), DecodeAll(reader, rest), after);
  }

  lemma ReadTwo(reader: Reader, first: seq<string>, second: seq<string>, after: Events)
    ensures Read(reader, first + second, after) == Read(reader, first, Read(reader, second, after))
  {
    DecodeAppend(reader, first, second);
    ThenAssoc(DecodeAll(reader, first), DecodeAll(reader, second), after);
  }

  /** Parsing the lines of a trace reads its own data and leaves the invoke stack as it found it,
      for every nesting and whatever lines come after. */
  lemma {:induction false} ParseTokens(reader: Reader, t: Trace, program: Address, stack: seq<Address>, tail: seq<Line>)
    requires if stack == [] then program != reader.own else program == stack[|stack| - 1]
    ensures ParseLines(reader, Tokens(t) + tail, stack)
            == Read(reader, OwnPayloads(t, program, reader.own), ParseLines(reader, tail, stack))
    decreases t, 0
  {
    hide ParseLines, Read, DecodeOne, Then;
    var after := ParseLines(reader, tail, stack);
    match t {
      case End =>
        assert [] + tail == tail;
        ReadNothing(reader, after);
      case Log(_, next) =>
        Plain(reader, next, program, stack, tail);
      case Consumed(_, _, next) =>
        Plain(reader, next, program, stack, tail);
      case ReturnData(_, next) =>
        Plain(reader, next, program, stack, tail);
      case Emit(payload, next) =>
        ParseTokens(reader, next, program, stack, tail);
        assert [Data(payload)] + Tokens(next) + tail == [Data(payload)] + (Tokens(next) + tail);
        DataLine(reader, payload, Tokens(next) + tail, stack);
        var rest := OwnPayloads(next, program, reader.own);
        assert [] + rest == rest;
        ReadOne(reader, payload, rest, after);
      case Frame(callee, body, _, next) =>
        var inner, behind := stack + [callee], Tokens(next) + tail;
        ParseTokens(reader, next, program, stack, tail);
        ParseTokens(reader, body, callee, inner, [Return] + behind);
        assert Popped(inner) == stack;
        FrameLines(reader, callee, behind, inner);
        FrameLines(reader, callee, Tokens(body) + ([Return] + behind), stack);
        assert [Invoke(callee)] + Tokens(body) + [Return] + Tokens(next) + tail
            == [Invoke(callee)] + (Tokens(body) + ([Return] + behind));
        ReadTwo(reader, OwnPayloads(body, callee, reader.own), OwnPayloads(next, program, reader.own), after);
    }
  }

  lemma {:induction false} Plain(reader: Reader, next: Trace, program: Address, stack: seq<Address>, tail: seq<Line>)
    requires if stack == [] then program != reader.own else program == stack[|stack| - 1]
    ensures ParseLines(reader, [Other] + Tokens(next) + tail, stack)
            == Read(reader, OwnPayloads(next, program, reader.own), ParseLines(reader, tail, stack))
    decreases next, 1
  {
    hide ParseLines, Read;
    ParseTokens(reader, next, program, stack, tail);
    OtherLine(reader, Tokens(next) + tail, stack);
    assert [Other] + Tokens(next) + tail == [Other] + (Tokens(next) + tail);
  }

  // The logs of a whole transaction: its top-level invocations, outside every program.
  predicate TopLevel(t: Trace) {
    WellFormed(t) && !HasConsumed(t)
  }

  function Printed(t: Trace): seq<string> {
    Render(t, "", 0)
  }

  /** The parser inverts the printer: from the logs of any forest of invocations it reads exactly
      what the frames of this program emitted, in order, and nothing another program logged. */
  lemma ParsePrinted(reader: Reader, t: Trace)
    requires TopLevel(t) && IsAddress(reader.own)
    ensures Parse(reader, Printed(t)) == DecodeAll(reader, OwnPayloads(t, "", reader.own))
  {
    TokensOfRender(t, "", 0);
    ParseTokens(reader, t, "", [], []);
    assert Tokens(t) + [] == Tokens(t);
    ThenUnit(DecodeAll(reader, OwnPayloads(t, "", reader.own)));
  }

  function EncodeAll(encode: ProgramEvent -> string, events: seq<ProgramEvent>): seq<string> {
    if events == [] then [] else [encode(events[0])] + EncodeAll(encode, events[1..])
  }

  // A decoder of UTF-8 drops U+0000, which is the byte zero and no part of any other character.
  function WithoutNuls(text: Text): Text {
    if text == [] then [] else (if text[0] == 0 then [] else [text[0]]) + WithoutNuls(text[1..])
  }

  lemma {:induction false} SameTextIff(text: Text)
    ensures |WithoutNuls(text)| <= |text|
    ensures WithoutNuls(text) == text <==> 0 !in text
    decreases |text|
  {
    if text != [] {
      SameTextIff(text[1..]);
      assert text == [text[0]] + text[1..];
      if text[0] != 0 && WithoutNuls(text) == text {
        assert WithoutNuls(text)[1..] == WithoutNuls(text[1..]);
      }
    }
  }

  // The event as it is read: its texts without zero bytes.
  function Shown(e: ProgramEvent): ProgramEvent {
    match e
    case CreatorRegistered(wallet, handle, name, description, suggestedAmount, slot) =>
      CreatorRegistered(wallet, WithoutNuls(handle), WithoutNuls(name), WithoutNuls(description), suggestedAmount, slot)
    case CreatorUpdated(wallet, handle, name, description, suggestedAmount, slot) =>
      CreatorUpdated(wallet, WithoutNuls(handle), WithoutNuls(name), WithoutNuls(description), suggestedAmount, slot)
    case Pledged(_, _, _, _, _, _, _, _, _) => e
    case VisibilityChanged(_, _, _, _) => e
  }

  function AllShown(events: seq<ProgramEvent>): seq<ProgramEvent> {
    if events == [] then [] else [Shown(events[0])] + AllShown(events[1..])
  }

  ghost predicate Inverts(reader: Reader, encode: ProgramEvent -> string) {
    forall e :: reader.decode(encode(e)) == Event(Shown(e))
  }

  /** Emitted events come back as they were emitted, up to zero bytes in their texts. */
  lemma {:induction false} DecodeEncoded(reader: Reader, encode: ProgramEvent -> string, events: seq<ProgramEvent>)
    requires Inverts(reader, encode)
    ensures DecodeAll(reader, EncodeAll(encode, events)) == Ok(AllShown(events))
  {
    if events != [] {
      DecodeEncoded(reader, encode, events[1..]);
      var payloads := EncodeAll(encode, events);
      assert payloads[1..] == EncodeAll(encode, events[1..]);
    }
  }
}
