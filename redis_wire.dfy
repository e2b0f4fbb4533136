/** The reply side of the Redis client in redis.js, as a specification: the
    state the "receive" handler keeps between network deliveries, one turn of its
    `while (true)` loop (`Step`), and what a whole delivery does to that state
    (`Feed`). The class in RedisClient runs the same loop on its fields and is
    proved equal to `Feed`; the lemmas here say what `Feed` means. */
module RedisWire {
  import opened JsText

  const CRLF: string := "\r\n"

  /** A value handed to a request's success callback. `NotANumber` is what
      `parseInt` gives an integer reply that holds no digits. */
  datatype Value = Str(s: string) | Int(i: int) | NotANumber | Null | Arr(elems: seq<Value>)

  /** How a request's promise completes: `emitSuccess(value)` or `emitError(line)`. */
  datatype Outcome = Success(value: Value) | Failure(message: string)

  /** One completed request: the handle returned by `_send`, and its outcome. */
  datatype Resolution = Resolution(handle: nat, outcome: Outcome)

  /** The handler's captured variables `buffer`, `count` (bulk characters still
      owed, trailing CRLF included), `n` (array elements still owed) and
      `result` (the partial array), the queue of pending handles, and the log of
      completions so far. */
  datatype Parser = Parser(buffer: string, count: Parsed, n: Parsed, result: seq<Value>,
                           pending: seq<nat>, log: seq<Resolution>)

  /** What one turn of the loop does: return and wait for more input, go round
      again, or throw because a reply came with no pending handle (the
      `callbacks.shift()` of an empty queue is `undefined`). */
  datatype StepResult = Wait(p: Parser) | Next(p: Parser) | Throw(p: Parser)

  /** A whole delivery's effect: the state afterwards and whether the handler threw. */
  datatype Drained = Drained(state: Parser, threw: bool)

  /** The state of a client that has sent nothing and received nothing. */
  function Initial(): Parser
  {
    Parser("", Number(0), Number(0), [], [], [])
  }

  function Extend(p: Parser, data: string): Parser
  {
    p.(buffer := p.buffer + data)
  }

  function Clamp(i: int, len: nat): (r: nat)
    ensures r <= len
  {
    if i < 0 then 0 else if i > len then len else i
  }

  /** `s.substring(start, end)`: both ends are clamped to the string and
      swapped when out of order. */
  function Substring(s: string, start: int, end: int): (r: string)
    ensures 0 <= start <= end <= |s| ==> r == s[start..end]
    ensures |r| <= |s|
  {
    var a := Clamp(start, |s|);
    var b := Clamp(end, |s|);
    if a <= b then s[a..b] else s[b..a]
  }

  predicate CrlfAt(s: string, j: int)
  {
    0 <= j < |s| - 1 && s[j] == '\r' && s[j + 1] == '\n'
  }

  predicate NoCrlf(s: string)
  {
    forall j :: 0 <= j < |s| - 1 ==> !CrlfAt(s, j)
  }

  /** `s.indexOf("\r\n")`: the first position of a CRLF, or -1. */
  function IndexOfCrlf(s: string): (r: int)
    ensures r >= -1
    ensures r >= 0 ==> CrlfAt(s, r)
    ensures forall j :: 0 <= j && (r < 0 || j < r) ==> !CrlfAt(s, j)
  {
    if |s| < 2 then -1
    else if s[0] == '\r' && s[1] == '\n' then 0
    else
      var k := IndexOfCrlf(s[1..]);
      assert forall j :: 1 <= j ==> CrlfAt(s, j) == CrlfAt(s[1..], j - 1);
      if k < 0 then -1 else k + 1
  }

  predicate Positive(x: Parsed)
  {
    x.Number? && x.v > 0
  }

  predicate IsZero(x: Parsed)
  {
    x.Number? && x.v == 0
  }

  /** `count = c + 2`, with NaN + 2 being NaN. */
  function PlusTwo(x: Parsed): Parsed
  {
    match x
    case Number(k) => Number(k + 2)
    case NaN => NaN
  }

  /** How one turn may change the queue and the log: not at all, or by
      completing the oldest pending handle and no other. */
  predicate Advances(p: Parser, q: Parser)
  {
    || (q.pending == p.pending && q.log == p.log)
    || (p.pending != [] && q.pending == p.pending[1..] && |q.log| == |p.log| + 1
        && q.log[..|p.log|] == p.log && q.log[|p.log|].handle == p.pending[0])
  }

  /** Completes the oldest pending handle with `outcome`; throws when none is pending. */
  function Resolve(p: Parser, outcome: Outcome): (r: StepResult)
    ensures !r.Wait? && r.p.buffer == p.buffer && r.p.count == p.count
    ensures r.Throw? <==> p.pending == []
    ensures Advances(p, r.p)
    ensures r.Next? ==> r.p == p.(pending := p.pending[1..],
                                  log := p.log + [Resolution(p.pending[0], outcome)])
  {
    if p.pending == [] then Throw(p)
    else Next(p.(pending := p.pending[1..], log := p.log + [Resolution(p.pending[0], outcome)]))
  }

  /** The inner `reply(obj)`: inside an array, store `obj` and count it down;
      when no element is owed any more, complete the oldest handle with the
      array (or with `obj` itself at top level). */
  function Reply(p: Parser, obj: Value): (r: StepResult)
    ensures !r.Wait? && r.p.buffer == p.buffer && r.p.count == p.count
    ensures Advances(p, r.p)
  {
    var inArray := Positive(p.n);
    var q := if inArray then p.(result := p.result + [obj], n := Number(p.n.v - 1)) else p;
    var value := if inArray then Arr(p.result + [obj]) else obj;
    if IsZero(q.n) then Resolve(q, Success(value)) else Next(q)
  }

  /** The `switch (command)` on a reply line whose tag is `command` and whose
      text is `line`; `p.buffer` has already lost the line and its CRLF. */
  function LineAction(p: Parser, command: char, line: string): (r: StepResult)
    ensures !r.Wait? && r.p.buffer == p.buffer
    ensures Advances(p, r.p)
  {
    if command == '+' then Reply(p, Str(line))
    else if command == ':' then
      Reply(p, match ParseInt(line) case Number(k) => Int(k) case NaN => NotANumber)
    else if command == '$' then
      var c := ParseInt(line);
      if c == Number(-1) then Reply(p, Null) else Next(p.(count := PlusTwo(c)))
    else if command == '*' then
      var k := ParseInt(line);
      if k == Number(-1) then Reply(p.(n := Number(0)), Null) else Next(p.(n := k, result := []))
    else if command == '-' then Resolve(p, Failure(line))
    else Next(p)
  }

  /** One turn of the `while (true)` loop. */
  function Step(p: Parser): (r: StepResult)
    ensures r.Wait? ==> r.p == p
    ensures !r.Wait? ==> |r.p.buffer| < |p.buffer| && Advances(p, r.p)
  {
    if Positive(p.count) then
      if |p.buffer| < p.count.v then Wait(p)
      else
        var chunk := Substring(p.buffer, 0, p.count.v - 2);
        Reply(p.(buffer := Substring(p.buffer, p.count.v, |p.buffer|), count := Number(0)), Str(chunk))
    else
      var end := IndexOfCrlf(p.buffer);
      if end == -1 then Wait(p)
      else
        LineAction(p.(buffer := Substring(p.buffer, end + 2, |p.buffer|)),
                   p.buffer[0], Substring(p.buffer, 1, end))
  }

  /** Runs the loop until it returns or throws. */
  function Drain(p: Parser): (d: Drained)
    decreases |p.buffer|
  {
    match Step(p)
    case Wait(q) => Drained(q, false)
    case Throw(q) => Drained(q, true)
    case Next(q) => Drain(q)
  }

  /** The "receive" handler: append the delivered data, then run the loop. */
  function Feed(p: Parser, data: string): Drained
  {
    Drain(Extend(p, data))
  }

  /** Finishes a drain from the outcome of its first turn. */
  function Resume(r: StepResult): Drained
  {
    match r
    case Wait(q) => Drained(q, false)
    case Throw(q) => Drained(q, true)
    case Next(q) => Drain(q)
  }

  function Handles(log: seq<Resolution>): (hs: seq<nat>)
    ensures |hs| == |log|
    ensures forall i :: 0 <= i < |log| ==> hs[i] == log[i].handle
  {
    if log == [] then [] else [log[0].handle] + Handles(log[1..])
  }

  lemma HandlesAppend(a: seq<Resolution>, b: seq<Resolution>)
    ensures Handles(a + b) == Handles(a) + Handles(b)
  {
    assert Handles(a + b) == Handles(a) + Handles(b);
  }

  // ---------------------------------------------------------------------------
  // Handles complete in send order.

  /** A delivery only completes handles from the front of the queue, in queue
      order, each once: the log grows by completions of exactly the handles
      that left the queue, oldest first, and nothing in the log is rewritten. */
  lemma {:induction false} DrainIsFifo(p: Parser)
    ensures var q := Drain(p).state;
      && |p.log| <= |q.log| && q.log[..|p.log|] == p.log
      && p.pending == Handles(q.log[|p.log|..]) + q.pending
    decreases |p.buffer|
  {
    var r := Step(p);
    var q := Drain(p).state;
    if r.Next? {
      DrainIsFifo(r.p);
      assert q == Drain(r.p).state;
      AdvancesThenFifo(p, r.p, q);
    } else {
      assert q == r.p;
      assert q.log[..|q.log|] == q.log && q.log[|q.log|..] == [];
      AdvancesThenFifo(p, q, q);
    }
  }

  lemma AdvancesThenFifo(p: Parser, m: Parser, q: Parser)
    requires Advances(p, m)
    requires |m.log| <= |q.log| && q.log[..|m.log|] == m.log
    requires m.pending == Handles(q.log[|m.log|..]) + q.pending
    ensures |p.log| <= |q.log| && q.log[..|p.log|] == p.log
    ensures p.pending == Handles(q.log[|p.log|..]) + q.pending
  {
    if m.pending != p.pending || m.log != p.log {
      assert q.log[|p.log|..] == [q.log[|p.log|]] + q.log[|m.log|..];
      HandlesAppend([q.log[|p.log|]], q.log[|m.log|..]);
      assert m.log[..|p.log|] == p.log;
      assert q.log[..|p.log|] == m.log[..|p.log|];
    }
  }

  // ---------------------------------------------------------------------------
  // Partial input.

  /** A turn waits exactly when the bulk data is still short of `count`
      characters, or, in line mode, when no CRLF has arrived. */
  lemma StepWaits(p: Parser)
    ensures Step(p).Wait? <==>
      if Positive(p.count) then |p.buffer| < p.count.v else NoCrlf(p.buffer)
  {
    if !Positive(p.count) && IndexOfCrlf(p.buffer) != -1 {
      assert CrlfAt(p.buffer, IndexOfCrlf(p.buffer));
    }
  }

  /** A delivery that does not complete a line (or the owed bulk data) only
      grows the buffer: nothing is completed and nothing else changes. */
  lemma FeedPartial(p: Parser, data: string)
    requires if Positive(p.count) then |p.buffer + data| < p.count.v else NoCrlf(p.buffer + data)
    ensures Feed(p, data) == Drained(Extend(p, data), false)
  {
    StepWaits(Extend(p, data));
  }

  lemma {:induction false} IndexOfCrlfExtend(s: string, x: string)
    requires IndexOfCrlf(s) >= 0
    ensures IndexOfCrlf(s + x) == IndexOfCrlf(s)
  {
    var k := IndexOfCrlf(s);
    assert CrlfAt(s + x, k);
    assert forall j :: 0 <= j < k ==> CrlfAt(s + x, j) == CrlfAt(s, j);
  }

  function ExtendResult(r: StepResult, x: string): StepResult
  {
    match r
    case Wait(q) => Wait(Extend(q, x))
    case Next(q) => Next(Extend(q, x))
    case Throw(q) => Throw(Extend(q, x))
  }

  /** The cases of the switch never look at the buffer. */
  lemma LineActionExtend(p: Parser, command: char, line: string, x: string)
    ensures LineAction(Extend(p, x), command, line) == ExtendResult(LineAction(p, command, line), x)
  {
    if command == '+' {
      ReplyExtend(p, Str(line), x);
    } else if command == ':' {
      ReplyExtend(p, match ParseInt(line) case Number(k) => Int(k) case NaN => NotANumber, x);
    } else if command == '$' {
      ReplyExtend(p, Null, x);
    } else if command == '*' {
      ReplyExtend(p.(n := Number(0)), Null, x);
      assert Extend(p, x).(n := Number(0)) == Extend(p.(n := Number(0)), x);
    } else if command == '-' {
      ResolveExtend(p, Failure(line), x);
    }
  }

  lemma ResolveExtend(p: Parser, outcome: Outcome, x: string)
    ensures Resolve(Extend(p, x), outcome) == ExtendResult(Resolve(p, outcome), x)
  {
  }

  lemma ReplyExtend(p: Parser, obj: Value, x: string)
    ensures Reply(Extend(p, x), obj) == ExtendResult(Reply(p, obj), x)
  {
  }

  /** More input does not change what a turn that already went ahead does;
      it is only carried along in the buffer. */
  lemma StepExtend(p: Parser, x: string)
    requires !Step(p).Wait?
    ensures Step(Extend(p, x)) == ExtendResult(Step(p), x)
  {
    if Positive(p.count) {
      BulkStepExtend(p, x);
    } else {
      LineStepExtend(p, x);
    }
  }

  lemma BulkStepExtend(p: Parser, x: string)
    requires Positive(p.count) && |p.buffer| >= p.count.v
    ensures Step(Extend(p, x)) == ExtendResult(Step(p), x)
  {
    var b := p.buffer;
    var c := p.count.v;
    assert Substring(b + x, 0, c - 2) == Substring(b, 0, c - 2);
    assert Substring(b + x, c, |b + x|) == Substring(b, c, |b|) + x;
    var q := p.(buffer := Substring(b, c, |b|), count := Number(0));
    assert Extend(p, x).(buffer := Substring(b + x, c, |b + x|), count := Number(0)) == Extend(q, x);
    ReplyExtend(q, Str(Substring(b, 0, c - 2)), x);
  }

  lemma LineStepExtend(p: Parser, x: string)
    requires !Positive(p.count) && IndexOfCrlf(p.buffer) >= 0
    ensures Step(Extend(p, x)) == ExtendResult(Step(p), x)
  {
    var b := p.buffer;
    var end := IndexOfCrlf(b);
    IndexOfCrlfExtend(b, x);
    assert (b + x)[0] == b[0];
    assert Substring(b + x, 1, end) == Substring(b, 1, end);
    assert Substring(b + x, end + 2, |b + x|) == Substring(b, end + 2, |b|) + x;
    var q := p.(buffer := Substring(b, end + 2, |b|));
    assert Extend(p, x).(buffer := Substring(b + x, end + 2, |b + x|)) == Extend(q, x);
    LineActionExtend(q, b[0], Substring(b, 1, end), x);
  }

  /** If the handler did not throw, running it on more input is the same as
      running it first and then carrying on with the extra input appended. */
  lemma {:induction false} DrainExtend(p: Parser, x: string)
    requires !Drain(p).threw
    ensures Drain(Extend(p, x)) == Drain(Extend(Drain(p).state, x))
    decreases |p.buffer|
  {
    var r := Step(p);
    if r.Next? {
      StepExtend(p, x);
      DrainExtend(r.p, x);
    }
  }

  /** A throw on a prefix of the input is also a throw on the whole input. */
  lemma {:induction false} DrainThrowExtend(p: Parser, x: string)
    requires Drain(p).threw
    ensures Drain(Extend(p, x)) == Drained(Extend(Drain(p).state, x), true)
    decreases |p.buffer|
  {
    var r := Step(p);
    StepExtend(p, x);
    if r.Next? {
      DrainThrowExtend(r.p, x);
    }
  }

  /** Splitting the input at any point gives the same completions and the same
      final state as feeding it whole, as long as the handler does not throw on
      the whole input. */
  lemma FeedSplit(p: Parser, a: string, b: string)
    requires !Feed(p, a + b).threw
    ensures !Feed(p, a).threw
    ensures Feed(Feed(p, a).state, b) == Feed(p, a + b)
  {
    assert Extend(Extend(p, a), b) == Extend(p, a + b);
    if Feed(p, a).threw {
      DrainThrowExtend(Extend(p, a), b);
      assert false;
    }
    DrainExtend(Extend(p, a), b);
  }

  // ---------------------------------------------------------------------------
  // What each reply tag does.

  /** A reply line: the tag, the text, CRLF. The first CRLF in the buffer is
      the one that ends it, so the turn hands exactly `line` to the tag's case. */
  lemma LineStep(p: Parser, tag: char, line: string, rest: string)
    requires !Positive(p.count) && tag != '\r' && NoCrlf(line)
    requires p.buffer == [tag] + line + CRLF + rest
    ensures Step(p) == LineAction(p.(buffer := rest), tag, line)
  {
    var b := p.buffer;
    var e := |line| + 1;
    assert CrlfAt(b, e);
    forall j | 0 <= j < e
      ensures !CrlfAt(b, j)
    {
      if 1 <= j < e - 1 {
        assert CrlfAt(b, j) == CrlfAt(line, j - 1);
      }
    }
    assert IndexOfCrlf(b) == e;
    assert Substring(b, 1, e) == line;
    assert Substring(b, e + 2, |b|) == rest;
  }

  /** `+text`: completes the oldest handle with the text (in an array: stores it). */
  lemma StatusReply(p: Parser, text: string, rest: string)
    requires !Positive(p.count) && NoCrlf(text)
    requires p.buffer == "+" + text + CRLF + rest
    ensures Step(p) == Reply(p.(buffer := rest), Str(text))
  {
    LineStep(p, '+', text, rest);
  }

  /** `:k`: completes with the integer `k`, read back in base 10. */
  lemma IntegerReply(p: Parser, k: int, rest: string)
    requires !Positive(p.count)
    requires p.buffer == ":" + IntToString(k) + CRLF + rest
    ensures Step(p) == Reply(p.(buffer := rest), Int(k))
  {
    NoCrlfInNumber(k);
    LineStep(p, ':', IntToString(k), rest);
    ParseIntToString(k);
  }

  /** `-text`: fails the oldest handle with the text, even in the middle of an
      array, and leaves the array state alone. */
  lemma ErrorReply(p: Parser, text: string, rest: string)
    requires !Positive(p.count) && NoCrlf(text) && p.pending != []
    requires p.buffer == "-" + text + CRLF + rest
    ensures Step(p) == Next(p.(buffer := rest, pending := p.pending[1..],
                               log := p.log + [Resolution(p.pending[0], Failure(text))]))
  {
    LineStep(p, '-', text, rest);
  }

  /** `$k` with k >= 0: switches to bulk mode owing k + 2 characters,
      completing nothing yet. */
  lemma BulkHeader(p: Parser, k: nat, rest: string)
    requires !Positive(p.count)
    requires p.buffer == "$" + IntToString(k) + CRLF + rest
    ensures Step(p) == Next(p.(buffer := rest, count := Number(k + 2)))
  {
    NoCrlfInNumber(k);
    LineStep(p, '$', IntToString(k), rest);
    BulkHeaderAction(p.(buffer := rest), k);
  }

  lemma BulkHeaderAction(q: Parser, k: nat)
    ensures LineAction(q, '$', IntToString(k)) == Next(q.(count := Number(k + 2)))
  {
    ParseIntToString(k);
  }

  /** Bulk mode owing k + 2 characters: waits until all of them are buffered,
      then takes the first k as the value and drops all k + 2. */
  lemma BulkBody(p: Parser, k: nat)
    requires p.count == Number(k + 2)
    ensures |p.buffer| < k + 2 ==> Step(p) == Wait(p)
    ensures |p.buffer| >= k + 2 ==>
      Step(p) == Reply(p.(buffer := p.buffer[k + 2..], count := Number(0)), Str(p.buffer[..k]))
  {
  }

  /** `$-1`: completes with null. */
  lemma NullBulkReply(p: Parser, rest: string)
    requires !Positive(p.count)
    requires p.buffer == "$-1" + CRLF + rest
    ensures Step(p) == Reply(p.(buffer := rest), Null)
  {
    NoCrlfInNumber(-1);
    assert p.buffer == "$" + IntToString(-1) + CRLF + rest;
    LineStep(p, '$', IntToString(-1), rest);
    ParseIntToString(-1);
  }

  /** `*k` with k != -1: starts a fresh array owing k elements (only one level
      exists: an enclosing partial array is dropped), completing nothing yet. */
  lemma MultiHeader(p: Parser, k: int, rest: string)
    requires !Positive(p.count) && k != -1
    requires p.buffer == "*" + IntToString(k) + CRLF + rest
    ensures Step(p) == Next(p.(buffer := rest, n := Number(k), result := []))
  {
    NoCrlfInNumber(k);
    LineStep(p, '*', IntToString(k), rest);
    ParseIntToString(k);
  }

  /** `*0` completes nothing: the handle waits for whatever reply comes next. */
  lemma EmptyMultiCompletesNothing(p: Parser, rest: string)
    requires !Positive(p.count)
    requires p.buffer == "*0" + CRLF + rest
    ensures Step(p).Next? && Step(p).p.pending == p.pending && Step(p).p.log == p.log
    ensures Step(p).p.n == Number(0)
  {
    assert p.buffer == "*" + IntToString(0) + CRLF + rest;
    MultiHeader(p, 0, rest);
  }

  /** `*-1`: ends any array in progress and completes the oldest handle with null. */
  lemma NullMultiReply(p: Parser, rest: string)
    requires !Positive(p.count) && p.pending != []
    requires p.buffer == "*-1" + CRLF + rest
    ensures Step(p) == Next(p.(buffer := rest, n := Number(0), pending := p.pending[1..],
                               log := p.log + [Resolution(p.pending[0], Success(Null))]))
  {
    NoCrlfInNumber(-1);
    assert p.buffer == "*" + IntToString(-1) + CRLF + rest;
    LineStep(p, '*', IntToString(-1), rest);
    ParseIntToString(-1);
  }

  /** A line with any other tag is dropped: nothing completes and no other
      state changes. */
  lemma UnknownTag(p: Parser, tag: char, line: string, rest: string)
    requires !Positive(p.count) && NoCrlf(line)
    requires tag !in "+:$*-\r"
    requires p.buffer == [tag] + line + CRLF + rest
    ensures Step(p) == Next(p.(buffer := rest))
  {
    LineStep(p, tag, line, rest);
  }

  /** Inside an array, an element is stored, and the array completes the
      oldest handle when its last element arrives. */
  lemma ArrayElement(p: Parser, obj: Value)
    requires Positive(p.n)
    ensures p.n.v > 1 ==> Reply(p, obj) == Next(p.(result := p.result + [obj], n := Number(p.n.v - 1)))
    ensures p.n.v == 1 ==> Reply(p, obj) == Resolve(p.(result := p.result + [obj], n := Number(0)),
                                                   Success(Arr(p.result + [obj])))
  {
  }

  lemma NoCrlfInNumber(k: int)
    ensures NoCrlf(IntToString(k))
  {
    var s := IntToString(k);
    forall j ensures !CrlfAt(s, j) {
      if 0 <= j < |s| - 1 && k >= 0 {
        assert IsDigit(NatToString(k)[j]);
      } else if 0 <= j < |s| - 1 {
        assert IsDigit(NatToString(-k)[j]);
      }
    }
  }
}
