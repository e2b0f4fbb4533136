/** The Redis client object of redis.js: the request encoders and `_send`,
    which queue a handle per request and write the request, and the "receive"
    handler, which runs the parser of RedisWire over the client's own fields. */
module RedisClient {
  import opened JsText
  import opened RedisWire
  import opened Wrappers

  // ---------------------------------------------------------------------------
  // Requests, in the old Redis request format: an inline command line, or a
  // command line ending in the value's length followed by the value itself.

  /** `CMD key <value.length>` CRLF `value`, as `set`, `getset`, `rpush` and
      `lpush` build it. */
  function BulkRequest(command: string, key: string, value: string): string
  {
    command + " " + key + " " + IntToString(|value|) + CRLF + value
  }

  function SetRequest(key: string, value: string): string { BulkRequest("SET", key, value) }
  function GetSetRequest(key: string, value: string): string { BulkRequest("GETSET", key, value) }
  function RPushRequest(key: string, value: string): string { BulkRequest("RPUSH", key, value) }
  function LPushRequest(key: string, value: string): string { BulkRequest("LPUSH", key, value) }

  function GetRequest(key: string): string { "GET " + key }
  function LLenRequest(key: string): string { "LLEN " + key }
  function LRangeRequest(key: string, from: int, to: int): string
  {
    "LRANGE " + key + " " + IntToString(from) + " " + IntToString(to)
  }
  function SelectRequest(index: int): string { "SELECT " + IntToString(index) }
  function MoveRequest(key: string, index: int): string { "MOVE " + key + " " + IntToString(index) }

  /** `incr(key, step)`: `INCRBY` only when `by` is truthy; an omitted step and a
      step of 0 are both falsy and give `INCR`. */
  function IncrRequest(key: string, step: int): string
  {
    if step != 0 then "INCRBY " + key + " " + IntToString(step) else "INCR " + key
  }

  function DecrRequest(key: string, step: int): string
  {
    if step != 0 then "DECRBY " + key + " " + IntToString(step) else "DECR " + key
  }

  // ---------------------------------------------------------------------------
  // How the server reads a request back.

  predicate SpaceFree(s: string)
  {
    forall i :: 0 <= i < |s| ==> s[i] != ' '
  }

  /** A word of a command line: no space, and no CR or LF. */
  predicate IsWord(s: string)
  {
    forall i :: 0 <= i < |s| ==> s[i] != ' ' && s[i] != '\r' && s[i] != '\n'
  }

  /** `s.split(" ")`: the pieces between single spaces. */
  function SplitSpaces(s: string): (ws: seq<string>)
    ensures |ws| >= 1
  {
    if s == [] then [""]
    else
      var rest := SplitSpaces(s[1..]);
      if s[0] == ' ' then [""] + rest else [[s[0]] + rest[0]] + rest[1..]
  }

  lemma {:induction false} SplitSpaceFree(a: string)
    requires SpaceFree(a)
    ensures SplitSpaces(a) == [a]
  {
    if a != [] {
      SplitSpaceFree(a[1..]);
      assert [a[0]] + a[1..] == a;
    }
  }

  lemma {:induction false} SplitAfterWord(a: string, b: string)
    requires SpaceFree(a)
    ensures SplitSpaces(a + " " + b) == [a] + SplitSpaces(b)
  {
    if a == [] {
      assert (a + " " + b)[1..] == b;
    } else {
      var s := a + " " + b;
      assert s[0] == a[0] && s[1..] == a[1..] + " " + b;
      SplitAfterWord(a[1..], b);
      assert [a[0]] + a[1..] == a;
    }
  }

  lemma NumberIsWord(k: int)
    ensures IsWord(IntToString(k))
  {
    var s := IntToString(k);
    var digits := NatToString(if k < 0 then -k else k);
    forall i | 0 <= i < |s| ensures s[i] != ' ' && s[i] != '\r' && s[i] != '\n' {
      if k < 0 && i > 0 {
        assert s[i] == digits[i - 1];
      }
    }
  }

  lemma SplitTwo(a: string, b: string)
    requires IsWord(a) && IsWord(b)
    ensures SplitSpaces(a + " " + b) == [a, b]
  {
    SplitAfterWord(a, b);
    SplitSpaceFree(b);
  }

  lemma SplitThree(a: string, b: string, c: string)
    requires IsWord(a) && IsWord(b) && IsWord(c)
    ensures SplitSpaces(a + " " + b + " " + c) == [a, b, c]
  {
    SplitTwo(b, c);
    SplitAfterWord(a, b + " " + c);
    assert a + " " + b + " " + c == a + " " + (b + " " + c);
  }

  lemma SplitFour(a: string, b: string, c: string, d: string)
    requires IsWord(a) && IsWord(b) && IsWord(c) && IsWord(d)
    ensures SplitSpaces(a + " " + b + " " + c + " " + d) == [a, b, c, d]
  {
    SplitThree(b, c, d);
    SplitAfterWord(a, b + " " + c + " " + d);
    assert a + " " + b + " " + c + " " + d == a + " " + (b + " " + c + " " + d);
  }

  lemma GetReadBack(key: string)
    requires IsWord(key)
    ensures SplitSpaces(GetRequest(key)) == ["GET", key]
  {
    assert GetRequest(key) == "GET" + " " + key;
    SplitTwo("GET", key);
  }

  lemma LLenReadBack(key: string)
    requires IsWord(key)
    ensures SplitSpaces(LLenRequest(key)) == ["LLEN", key]
  {
    assert LLenRequest(key) == "LLEN" + " " + key;
    SplitTwo("LLEN", key);
  }

  lemma SelectReadBack(index: int)
    ensures SplitSpaces(SelectRequest(index)) == ["SELECT", IntToString(index)]
  {
    NumberIsWord(index);
    assert SelectRequest(index) == "SELECT" + " " + IntToString(index);
    SplitTwo("SELECT", IntToString(index));
  }

  lemma MoveReadBack(key: string, index: int)
    requires IsWord(key)
    ensures SplitSpaces(MoveRequest(key, index)) == ["MOVE", key, IntToString(index)]
  {
    NumberIsWord(index);
    assert MoveRequest(key, index) == "MOVE" + " " + key + " " + IntToString(index);
    SplitThree("MOVE", key, IntToString(index));
  }

  lemma LRangeReadBack(key: string, from: int, to: int)
    requires IsWord(key)
    ensures SplitSpaces(LRangeRequest(key, from, to)) == ["LRANGE", key, IntToString(from), IntToString(to)]
  {
    NumberIsWord(from);
    NumberIsWord(to);
    assert LRangeRequest(key, from, to) == "LRANGE" + " " + key + " " + IntToString(from) + " " + IntToString(to);
    SplitFour("LRANGE", key, IntToString(from), IntToString(to));
  }

  lemma IncrReadBack(key: string, step: int)
    requires IsWord(key)
    ensures SplitSpaces(IncrRequest(key, step)) == if step != 0 then ["INCRBY", key, IntToString(step)] else ["INCR", key]
  {
    if step != 0 {
      NumberIsWord(step);
      assert IncrRequest(key, step) == "INCRBY" + " " + key + " " + IntToString(step);
      SplitThree("INCRBY", key, IntToString(step));
    } else {
      assert IncrRequest(key, step) == "INCR" + " " + key;
      SplitTwo("INCR", key);
    }
  }

  lemma DecrReadBack(key: string, step: int)
    requires IsWord(key)
    ensures SplitSpaces(DecrRequest(key, step)) == if step != 0 then ["DECRBY", key, IntToString(step)] else ["DECR", key]
  {
    if step != 0 {
      NumberIsWord(step);
      assert DecrRequest(key, step) == "DECRBY" + " " + key + " " + IntToString(step);
      SplitThree("DECRBY", key, IntToString(step));
    } else {
      assert DecrRequest(key, step) == "DECR" + " " + key;
      SplitTwo("DECR", key);
    }
  }

  /** The inline requests split into the command and its arguments, each
      argument printed in base 10. */
  lemma InlineRequestsReadBack(key: string, index: int, from: int, to: int, step: int)
    requires IsWord(key)
    ensures SplitSpaces(GetRequest(key)) == ["GET", key]
    ensures SplitSpaces(LLenRequest(key)) == ["LLEN", key]
    ensures SplitSpaces(LRangeRequest(key, from, to)) == ["LRANGE", key, IntToString(from), IntToString(to)]
    ensures SplitSpaces(SelectRequest(index)) == ["SELECT", IntToString(index)]
    ensures SplitSpaces(MoveRequest(key, index)) == ["MOVE", key, IntToString(index)]
    ensures SplitSpaces(IncrRequest(key, step)) == if step != 0 then ["INCRBY", key, IntToString(step)] else ["INCR", key]
    ensures SplitSpaces(DecrRequest(key, step)) == if step != 0 then ["DECRBY", key, IntToString(step)] else ["DECR", key]
  {
    GetReadBack(key);
    LLenReadBack(key);
    LRangeReadBack(key, from, to);
    SelectReadBack(index);
    MoveReadBack(key, index);
    IncrReadBack(key, step);
    DecrReadBack(key, step);
  }

  /** A bulk request as the server of the day reads it from the connection:
      the command line up to the first CRLF, whose last word is the length of
      the value that follows; then the value; then the CRLF `_send` adds. */
  function ReadBulkRequest(wire: string): Option<(string, string, string)>
  {
    var end := IndexOfCrlf(wire);
    if end < 0 then None
    else
      var words := SplitSpaces(wire[..end]);
      var body := wire[end + 2..];
      if |words| != 3 then None
      else match ParseInt(words[2])
        case NaN => None
        case Number(k) =>
          if 0 <= k && k + 2 == |body| && body[k..] == CRLF then Some((words[0], words[1], body[..k]))
          else None
  }

  /** A command line free of CR, then CRLF: the first CRLF ends the line. */
  lemma LineThenRest(line: string, rest: string)
    requires forall i :: 0 <= i < |line| ==> line[i] != '\r'
    ensures var s := line + CRLF + rest;
      IndexOfCrlf(s) == |line| && s[..|line|] == line && s[|line| + 2..] == rest
  {
    var s := line + CRLF + rest;
    assert CrlfAt(s, |line|);
    assert forall j :: 0 <= j < |line| ==> !CrlfAt(s, j);
  }

  lemma BulkRequestLayout(command: string, key: string, value: string)
    requires IsWord(command) && IsWord(key)
    ensures var line := command + " " + key + " " + IntToString(|value|);
      var wire := BulkRequest(command, key, value) + CRLF;
      IndexOfCrlf(wire) == |line| && wire[..|line|] == line && wire[|line| + 2..] == value + CRLF
  {
    var line := command + " " + key + " " + IntToString(|value|);
    NumberIsWord(|value|);
    assert forall i :: 0 <= i < |line| ==> line[i] != '\r';
    assert BulkRequest(command, key, value) + CRLF == line + CRLF + (value + CRLF);
    LineThenRest(line, value + CRLF);
  }

  /** `set`, `getset`, `rpush` and `lpush` requests, followed by the CRLF
      `_send` appends, read back as the command, the key and the whole value,
      whatever bytes the value holds. */
  lemma BulkRequestReadBack(command: string, key: string, value: string)
    requires IsWord(command) && IsWord(key)
    ensures ReadBulkRequest(BulkRequest(command, key, value) + CRLF) == Some((command, key, value))
  {
    var digits := IntToString(|value|);
    var line := command + " " + key + " " + digits;
    BulkRequestLayout(command, key, value);
    NumberIsWord(|value|);
    SplitThree(command, key, digits);
    ParseIntToString(|value|);
    var wire := BulkRequest(command, key, value) + CRLF;
    var body := value + CRLF;
    assert IndexOfCrlf(wire) == |line|;
    assert SplitSpaces(wire[..|line|]) == [command, key, digits];
    assert wire[|line| + 2..] == body;
    assert ParseInt(digits) == Number(|value|);
    assert body[..|value|] == value && body[|value|..] == CRLF;
  }

  // ---------------------------------------------------------------------------
  // The client object.

  function Range(k: nat): (s: seq<nat>)
    ensures |s| == k && forall i :: 0 <= i < k ==> s[i] == i
  {
    if k == 0 then [] else Range(k - 1) + [k - 1]
  }

  class Client {
    // the receive handler's captured variables
    var buffer: string
    var count: Parsed
    var n: Parsed
    var result: seq<Value>
    /** `callbacks`: the handles of the requests still waiting, oldest first. */
    var callbacks: seq<nat>
    /** The promises completed so far, in completion order. */
    var completed: seq<Resolution>
    /** Everything written to the connection. */
    var sent: string
    /** The handle the next request gets. */
    var nextHandle: nat

    function State(): Parser
      reads this
    {
      Parser(buffer, count, n, result, callbacks, completed)
    }

    /** Handles are issued 0, 1, 2, ...; the completed ones, in completion
        order, followed by the waiting ones, are exactly the issued ones in
        issue order. So each request completes at most once, and in the order
        it was sent. */
    ghost predicate Valid()
      reads this
    {
      Handles(completed) + callbacks == Range(nextHandle)
    }

    constructor ()
      ensures Valid() && State() == Initial() && sent == "" && nextHandle == 0
    {
      buffer, count, n, result := "", Number(0), Number(0), [];
      callbacks, completed := [], [];
      sent, nextHandle := "", 0;
    }

    /** `_send`: queue a new handle at the tail and write the command and CRLF. */
    method Send(command: string) returns (h: nat)
      requires Valid()
      modifies this
      ensures Valid()
      ensures h == old(nextHandle) && nextHandle == h + 1
      ensures callbacks == old(callbacks) + [h] && completed == old(completed)
      ensures sent == old(sent) + command + CRLF
      ensures buffer == old(buffer) && count == old(count) && n == old(n) && result == old(result)
    {
      h := nextHandle;
      callbacks := callbacks + [h];
      sent := sent + command + CRLF;
      nextHandle := nextHandle + 1;
    }

    method Ping() returns (h: nat)
      requires Valid()
      modifies this
      ensures Valid() && h == old(nextHandle) && nextHandle == h + 1
      ensures callbacks == old(callbacks) + [h] && completed == old(completed)
      ensures sent == old(sent) + "PING" + CRLF
      ensures buffer == old(buffer) && count == old(count) && n == old(n) && result == old(result)
    {
      h := Send("PING");
    }

    method Set(key: string, value: string) returns (h: nat)
      requires Valid()
      modifies this
      ensures Valid() && h == old(nextHandle) && nextHandle == h + 1
      ensures callbacks == old(callbacks) + [h] && completed == old(completed)
      ensures sent == old(sent) + SetRequest(key, value) + CRLF
      ensures buffer == old(buffer) && count == old(count) && n == old(n) && result == old(result)
    {
      h := Send(SetRequest(key, value));
    }

    method Get(key: string) returns (h: nat)
      requires Valid()
      modifies this
      ensures Valid() && h == old(nextHandle) && nextHandle == h + 1
      ensures callbacks == old(callbacks) + [h] && completed == old(completed)
      ensures sent == old(sent) + GetRequest(key) + CRLF
      ensures buffer == old(buffer) && count == old(count) && n == old(n) && result == old(result)
    {
      h := Send(GetRequest(key));
    }

    method GetSet(key: string, value: string) returns (h: nat)
      requires Valid()
      modifies this
      ensures Valid() && h == old(nextHandle) && nextHandle == h + 1
      ensures callbacks == old(callbacks) + [h] && completed == old(completed)
      ensures sent == old(sent) + GetSetRequest(key, value) + CRLF
      ensures buffer == old(buffer) && count == old(count) && n == old(n) && result == old(result)
    {
      h := Send(GetSetRequest(key, value));
    }

    method Incr(key: string, step: int) returns (h: nat)
      requires Valid()
      modifies this
      ensures Valid() && h == old(nextHandle) && nextHandle == h + 1
      ensures callbacks == old(callbacks) + [h] && completed == old(completed)
      ensures sent == old(sent) + IncrRequest(key, step) + CRLF
      ensures buffer == old(buffer) && count == old(count) && n == old(n) && result == old(result)
    {
      h := Send(IncrRequest(key, step));
    }

    method Decr(key: string, step: int) returns (h: nat)
      requires Valid()
      modifies this
      ensures Valid() && h == old(nextHandle) && nextHandle == h + 1
      ensures callbacks == old(callbacks) + [h] && completed == old(completed)
      ensures sent == old(sent) + DecrRequest(key, step) + CRLF
      ensures buffer == old(buffer) && count == old(count) && n == old(n) && result == old(result)
    {
      h := Send(DecrRequest(key, step));
    }

    method DbSize() returns (h: nat)
      requires Valid()
      modifies this
      ensures Valid() && h == old(nextHandle) && nextHandle == h + 1
      ensures callbacks == old(callbacks) + [h] && completed == old(completed)
      ensures sent == old(sent) + "DBSIZE" + CRLF
      ensures buffer == old(buffer) && count == old(count) && n == old(n) && result == old(result)
    {
      h := Send("DBSIZE");
    }

    method RPush(key: string, value: string) returns (h: nat)
      requires Valid()
      modifies this
      ensures Valid() && h == old(nextHandle) && nextHandle == h + 1
      ensures callbacks == old(callbacks) + [h] && completed == old(completed)
      ensures sent == old(sent) + RPushRequest(key, value) + CRLF
      ensures buffer == old(buffer) && count == old(count) && n == old(n) && result == old(result)
    {
      h := Send(RPushRequest(key, value));
    }

    method LPush(key: string, value: string) returns (h: nat)
      requires Valid()
      modifies this
      ensures Valid() && h == old(nextHandle) && nextHandle == h + 1
      ensures callbacks == old(callbacks) + [h] && completed == old(completed)
      ensures sent == old(sent) + LPushRequest(key, value) + CRLF
      ensures buffer == old(buffer) && count == old(count) && n == old(n) && result == old(result)
    {
      h := Send(LPushRequest(key, value));
    }

    method LLen(key: string) returns (h: nat)
      requires Valid()
      modifies this
      ensures Valid() && h == old(nextHandle) && nextHandle == h + 1
      ensures callbacks == old(callbacks) + [h] && completed == old(completed)
      ensures sent == old(sent) + LLenRequest(key) + CRLF
      ensures buffer == old(buffer) && count == old(count) && n == old(n) && result == old(result)
    {
      h := Send(LLenRequest(key));
    }

    method LRange(key: string, from: int, to: int) returns (h: nat)
      requires Valid()
      modifies this
      ensures Valid() && h == old(nextHandle) && nextHandle == h + 1
      ensures callbacks == old(callbacks) + [h] && completed == old(completed)
      ensures sent == old(sent) + LRangeRequest(key, from, to) + CRLF
      ensures buffer == old(buffer) && count == old(count) && n == old(n) && result == old(result)
    {
      h := Send(LRangeRequest(key, from, to));
    }

    method Select(index: int) returns (h: nat)
      requires Valid()
      modifies this
      ensures Valid() && h == old(nextHandle) && nextHandle == h + 1
      ensures callbacks == old(callbacks) + [h] && completed == old(completed)
      ensures sent == old(sent) + SelectRequest(index) + CRLF
      ensures buffer == old(buffer) && count == old(count) && n == old(n) && result == old(result)
    {
      h := Send(SelectRequest(index));
    }

    method Move(key: string, index: int) returns (h: nat)
      requires Valid()
      modifies this
      ensures Valid() && h == old(nextHandle) && nextHandle == h + 1
      ensures callbacks == old(callbacks) + [h] && completed == old(completed)
      ensures sent == old(sent) + MoveRequest(key, index) + CRLF
      ensures buffer == old(buffer) && count == old(count) && n == old(n) && result == old(result)
    {
      h := Send(MoveRequest(key, index));
    }

    method FlushDb() returns (h: nat)
      requires Valid()
      modifies this
      ensures Valid() && h == old(nextHandle) && nextHandle == h + 1
      ensures callbacks == old(callbacks) + [h] && completed == old(completed)
      ensures sent == old(sent) + "FLUSHDB" + CRLF
      ensures buffer == old(buffer) && count == old(count) && n == old(n) && result == old(result)
    {
      h := Send("FLUSHDB");
    }

    method FlushAll() returns (h: nat)
      requires Valid()
      modifies this
      ensures Valid() && h == old(nextHandle) && nextHandle == h + 1
      ensures callbacks == old(callbacks) + [h] && completed == old(completed)
      ensures sent == old(sent) + "FLUSHALL" + CRLF
      ensures buffer == old(buffer) && count == old(count) && n == old(n) && result == old(result)
    {
      h := Send("FLUSHALL");
    }

    /** `redis.callbacks.shift().emitSuccess(obj)` / `.emitError(line)`:
        complete the oldest handle; with none waiting, `shift()` gives
        `undefined` and the call throws. */
    method CompleteOldest(outcome: Outcome) returns (threw: bool)
      modifies this`callbacks, this`completed
      ensures Resolve(old(State()), outcome) == if threw then Throw(State()) else Next(State())
    {
      if callbacks == [] {
        return true;
      }
      completed := completed + [Resolution(callbacks[0], outcome)];
      callbacks := callbacks[1..];
      return false;
    }

    /** The handler's inner `reply(obj)`. */
    method ReplyWith(obj: Value) returns (threw: bool)
      modifies this`result, this`n, this`callbacks, this`completed
      ensures Reply(old(State()), obj) == if threw then Throw(State()) else Next(State())
    {
      var value := obj;
      if Positive(n) {
        result := result + [value];
        value := Arr(result);
        n := Number(n.v - 1);
      }
      if IsZero(n) {
        threw := CompleteOldest(Success(value));
      } else {
        threw := false;
      }
    }

    /** The `switch (command)` on one reply line, the line and its CRLF
        already cut from the buffer. */
    method HandleLine(command: char, line: string) returns (threw: bool)
      modifies this`count, this`n, this`result, this`callbacks, this`completed
      ensures LineAction(old(State()), command, line) == if threw then Throw(State()) else Next(State())
      ensures buffer == old(buffer)
    {
      if command == '+' {
        threw := ReplyWith(Str(line));
      } else if command == ':' {
        var k := ParseInt(line);
        threw := ReplyWith(if k.Number? then Int(k.v) else NotANumber);
      } else if command == '$' {
        var c := ParseInt(line);
        if c == Number(-1) {
          threw := ReplyWith(Null);
        } else {
          count := PlusTwo(c);
          threw := false;
        }
      } else if command == '*' {
        n := ParseInt(line);
        if n == Number(-1) {
          n := Number(0);
          threw := ReplyWith(Null);
        } else {
          result := [];
          threw := false;
        }
      } else if command == '-' {
        threw := CompleteOldest(Failure(line));
      } else {
        threw := false;
      }
    }

    /** One turn of the `while (true)` loop: `waiting` when it returns for
        more data, `threw` when completing a handle throws. */
    method Turn() returns (waiting: bool, threw: bool)
      modifies this`buffer, this`count, this`n, this`result, this`callbacks, this`completed
      ensures waiting ==> !threw && Step(old(State())) == Wait(State())
      ensures !waiting ==> Step(old(State())) == if threw then Throw(State()) else Next(State())
    {
      if Positive(count) {
        if |buffer| < count.v {
          return true, false;
        }
        var chunk := Substring(buffer, 0, count.v - 2);
        buffer := Substring(buffer, count.v, |buffer|);
        count := Number(0);
        waiting := false;
        threw := ReplyWith(Str(chunk));
      } else {
        var end := IndexOfCrlf(buffer);
        if end == -1 {
          return true, false;
        }
        var command := buffer[0];
        var line := Substring(buffer, 1, end);
        buffer := Substring(buffer, end + 2, |buffer|);
        waiting := false;
        threw := HandleLine(command, line);
      }
    }

    /** The "receive" listener: append the data to the buffer and run the
        loop until it waits for more data or throws. */
    method Receive(data: string) returns (threw: bool)
      requires Valid()
      modifies this
      ensures Valid()
      ensures Drained(State(), threw) == Feed(old(State()), data)
      ensures sent == old(sent) && nextHandle == old(nextHandle)
    {
      ghost var before := State();
      buffer := buffer + data;
      ghost var start := State();
      assert start == Extend(before, data);
      var waiting := false;
      threw := false;
      while !waiting && !threw
        invariant !waiting && !threw ==> Drain(State()) == Drain(start)
        invariant waiting || threw ==> Drain(start) == Drained(State(), threw)
        invariant sent == old(sent) && nextHandle == old(nextHandle)
        decreases |buffer|, if waiting || threw then 0 else 1
      {
        ghost var now := State();
        waiting, threw := Turn();
        TurnDrains(now);
      }
      FeedKeepsIssued(before, data);
    }
  }

  /** Draining after one turn is draining from before it. */
  lemma TurnDrains(p: Parser)
    ensures Drain(p) == Resume(Step(p))
  {
  }

  /** A delivery keeps the completed handles followed by the pending ones. */
  lemma FeedKeepsIssued(p: Parser, data: string)
    ensures Handles(Feed(p, data).state.log) + Feed(p, data).state.pending == Handles(p.log) + p.pending
  {
    DrainKeepsIssued(Extend(p, data));
  }

  /** Draining keeps the completed handles followed by the pending ones. */
  lemma DrainKeepsIssued(p: Parser)
    ensures Handles(Drain(p).state.log) + Drain(p).state.pending == Handles(p.log) + p.pending
  {
    var q := Drain(p).state;
    DrainIsFifo(p);
    assert q.log == p.log + q.log[|p.log|..];
    HandlesAppend(p.log, q.log[|p.log|..]);
  }
}
