/** The replies a Redis server of the client's era sends, written out in the
    wire format, and the decoding theorem for the receive handler of redis.js:
    fed any run of well-formed replies, it completes the pending handles
    oldest first, one per reply, each with the value the reply carries. */
module RedisReplies {
  import opened JsText
  import opened RedisWire

  /** A server reply: status line, integer, bulk string, null bulk, multi-bulk,
      null multi-bulk, or error line. */
  datatype Response =
    | Status(text: string)
    | Integer(k: int)
    | Bulk(data: string)
    | NullBulk
    | Multi(items: seq<Response>)
    | NullMulti
    | Error(text: string)

  /** The reply on the wire. */
  function Encode(r: Response): string
  {
    match r
    case Status(t) => "+" + t + CRLF
    case Integer(k) => ":" + IntToString(k) + CRLF
    case Bulk(d) => "$" + IntToString(|d|) + CRLF + d + CRLF
    case NullBulk => "$-1" + CRLF
    case Multi(items) => "*" + IntToString(|items|) + CRLF + EncodeAll(items)
    case NullMulti => "*-1" + CRLF
    case Error(t) => "-" + t + CRLF
  }

  function EncodeAll(rs: seq<Response>): string
  {
    if rs == [] then "" else Encode(rs[0]) + EncodeAll(rs[1..])
  }

  /** A reply the client can take as an element of a multi-bulk reply: not an
      error (which completes a handle on its own) and not an array (there is
      only one level of array state). Status and error text hold no CRLF. */
  predicate IsElement(r: Response)
  {
    || (r.Status? && NoCrlf(r.text))
    || r.Integer?
    || r.Bulk?
    || r.NullBulk?
  }

  predicate AllElements(items: seq<Response>)
  {
    forall i :: 0 <= i < |items| ==> IsElement(items[i])
  }

  /** The replies the decoding theorem covers. An empty multi-bulk reply is
      left out: the client completes nothing for it (EmptyMultiCompletesNothing). */
  predicate WellFormed(r: Response)
  {
    || IsElement(r)
    || (r.Multi? && |r.items| >= 1 && AllElements(r.items))
    || r.NullMulti?
    || (r.Error? && NoCrlf(r.text))
  }

  function ElementValue(r: Response): Value
    requires IsElement(r)
  {
    match r
    case Status(t) => Str(t)
    case Integer(k) => Int(k)
    case Bulk(d) => Str(d)
    case NullBulk => Null
  }

  function ElementValues(items: seq<Response>): (vs: seq<Value>)
    requires AllElements(items)
    ensures |vs| == |items|
  {
    if items == [] then [] else ElementValues(items[..|items| - 1]) + [ElementValue(items[|items| - 1])]
  }

  /** What the request answered by `r` completes with. */
  function Expected(r: Response): Outcome
    requires WellFormed(r)
  {
    match r
    case Multi(items) => Success(Arr(ElementValues(items)))
    case NullMulti => Success(Null)
    case Error(t) => Failure(t)
    case _ => Success(ElementValue(r))
  }

  /** The completions of handles `hs` by replies `rs`, pairwise. */
  function Completions(hs: seq<nat>, rs: seq<Response>): (log: seq<Resolution>)
    requires |hs| == |rs| && forall i :: 0 <= i < |rs| ==> WellFormed(rs[i])
    ensures |log| == |rs|
  {
    if rs == [] then [] else [Resolution(hs[0], Expected(rs[0]))] + Completions(hs[1..], rs[1..])
  }

  /** Between replies: not in bulk mode and no array element owed. */
  predicate Idle(p: Parser)
  {
    p.count == Number(0) && p.n == Number(0)
  }

  /** An element is read in one turn (two for a bulk string: the length line,
      then the data) and then handed to `reply`. */
  lemma ElementDecodes(p: Parser, e: Response, rest: string)
    requires p.count == Number(0) && IsElement(e)
    requires p.buffer == Encode(e) + rest
    ensures Drain(p) == Resume(Reply(p.(buffer := rest), ElementValue(e)))
  {
    match e
    case Status(t) =>
      assert p.buffer == "+" + t + CRLF + rest;
      StatusReply(p, t, rest);
    case Integer(k) =>
      assert p.buffer == ":" + IntToString(k) + CRLF + rest;
      IntegerReply(p, k, rest);
    case Bulk(d) =>
      assert p.buffer == "$" + IntToString(|d|) + CRLF + (d + CRLF + rest);
      BulkHeader(p, |d|, d + CRLF + rest);
      var q := p.(buffer := d + CRLF + rest, count := Number(|d| + 2));
      BulkBody(q, |d|);
      assert q.buffer[|d| + 2..] == rest && q.buffer[..|d|] == d;
      assert q.(buffer := rest, count := Number(0)) == p.(buffer := rest);
    case NullBulk =>
      assert p.buffer == "$-1" + CRLF + rest;
      NullBulkReply(p, rest);
  }

  /** The elements of a multi-bulk reply, from the i-th on, are stored in
      order, and the last one completes the oldest handle with the whole array. */
  lemma {:induction false} ElementsDecode(p: Parser, items: seq<Response>, i: nat, rest: string)
    requires AllElements(items) && i < |items| && p.pending != []
    requires p.count == Number(0) && p.n == Number(|items| - i)
    requires p.result == ElementValues(items[..i])
    requires p.buffer == EncodeAll(items[i..]) + rest
    ensures Drain(p) == Drain(p.(buffer := rest, n := Number(0), result := ElementValues(items),
                                 pending := p.pending[1..],
                                 log := p.log + [Resolution(p.pending[0], Success(Arr(ElementValues(items))))]))
    decreases |items| - i
  {
    var e := items[i];
    var after := EncodeAll(items[i + 1..]) + rest;
    assert items[i..][1..] == items[i + 1..];
    assert p.buffer == Encode(e) + after;
    ElementDecodes(p, e, after);
    assert items[..i + 1][..i] == items[..i];
    assert ElementValues(items[..i + 1]) == p.result + [ElementValue(e)];
    if i + 1 < |items| {
      var q := p.(buffer := after, result := ElementValues(items[..i + 1]), n := Number(|items| - (i + 1)));
      assert Reply(p.(buffer := after), ElementValue(e)) == Next(q);
      ElementsDecode(q, items, i + 1, rest);
    } else {
      assert items[..i + 1] == items;
      assert items[i + 1..] == [];
      var q := p.(buffer := rest, result := ElementValues(items), n := Number(0));
      assert Reply(p.(buffer := after), ElementValue(e)) == Resolve(q, Success(Arr(ElementValues(items))));
    }
  }

  /** The parser once reply `r` is read: the buffer holds what followed it,
      the oldest handle is completed with the reply's outcome, and the array
      state holds the elements of `r` when it is a multi-bulk reply. */
  function AfterReply(p: Parser, r: Response, rest: string): Parser
    requires WellFormed(r) && p.pending != []
  {
    p.(buffer := rest,
       result := if r.Multi? then ElementValues(r.items) else p.result,
       pending := p.pending[1..],
       log := p.log + [Resolution(p.pending[0], Expected(r))])
  }

  /** One well-formed reply completes the oldest pending handle with its
      expected outcome and consumes exactly its own text. */
  lemma ReplyDecodes(p: Parser, r: Response, rest: string)
    requires Idle(p) && WellFormed(r) && p.pending != []
    requires p.buffer == Encode(r) + rest
    ensures Drain(p) == Drain(AfterReply(p, r, rest))
  {
    if r.Multi? {
      MultiDecodes(p, r, rest);
    } else if r.NullMulti? {
      NullMultiDecodes(p, r, rest);
    } else if r.Error? {
      ErrorDecodes(p, r, rest);
    } else {
      ElementReplyDecodes(p, r, rest);
    }
  }

  lemma MultiDecodes(p: Parser, r: Response, rest: string)
    requires Idle(p) && WellFormed(r) && r.Multi? && p.pending != []
    requires p.buffer == Encode(r) + rest
    ensures Drain(p) == Drain(AfterReply(p, r, rest))
  {
    var items := r.items;
    assert p.buffer == "*" + IntToString(|items|) + CRLF + (EncodeAll(items) + rest);
    MultiHeader(p, |items|, EncodeAll(items) + rest);
    var q := p.(buffer := EncodeAll(items) + rest, n := Number(|items|), result := []);
    assert items[0..] == items && items[..0] == [];
    ElementsDecode(q, items, 0, rest);
    assert q.(buffer := rest, n := Number(0), result := ElementValues(items), pending := p.pending[1..],
              log := p.log + [Resolution(p.pending[0], Expected(r))])
        == AfterReply(p, r, rest);
  }

  lemma NullMultiDecodes(p: Parser, r: Response, rest: string)
    requires Idle(p) && r.NullMulti? && p.pending != []
    requires p.buffer == Encode(r) + rest
    ensures Drain(p) == Drain(AfterReply(p, r, rest))
  {
    assert p.buffer == "*-1" + CRLF + rest;
    NullMultiReply(p, rest);
    assert p.(buffer := rest, n := Number(0), pending := p.pending[1..],
              log := p.log + [Resolution(p.pending[0], Success(Null))])
        == AfterReply(p, r, rest);
  }

  lemma ErrorDecodes(p: Parser, r: Response, rest: string)
    requires Idle(p) && WellFormed(r) && r.Error? && p.pending != []
    requires p.buffer == Encode(r) + rest
    ensures Drain(p) == Drain(AfterReply(p, r, rest))
  {
    var t := r.text;
    assert p.buffer == "-" + t + CRLF + rest;
    ErrorReply(p, t, rest);
    assert Expected(r) == Failure(t);
    assert Step(p) == Next(AfterReply(p, r, rest));
  }

  lemma ElementReplyDecodes(p: Parser, r: Response, rest: string)
    requires Idle(p) && IsElement(r) && p.pending != []
    requires p.buffer == Encode(r) + rest
    ensures Drain(p) == Drain(AfterReply(p, r, rest))
  {
    ElementDecodes(p, r, rest);
    assert Reply(p.(buffer := rest), ElementValue(r)) == Next(AfterReply(p, r, rest));
  }

  lemma DrainEmpty(p: Parser)
    requires Idle(p) && p.buffer == ""
    ensures Drain(p) == Drained(p, false)
  {
    StepWaits(p);
  }

  lemma CompletionsCons(hs: seq<nat>, rs: seq<Response>)
    requires |hs| == |rs| > 0 && forall i :: 0 <= i < |rs| ==> WellFormed(rs[i])
    ensures Completions(hs, rs) == [Resolution(hs[0], Expected(rs[0]))] + Completions(hs[1..], rs[1..])
  {
  }

  /** The parser once all of `rs` is read, reply by reply, with `rest` left. */
  function AfterAll(p: Parser, rs: seq<Response>, rest: string): (q: Parser)
    requires forall i :: 0 <= i < |rs| ==> WellFormed(rs[i])
    requires |rs| <= |p.pending|
    ensures q.buffer == rest && q.count == p.count && q.n == p.n
    decreases |rs|
  {
    if rs == [] then p.(buffer := rest)
    else AfterAll(AfterReply(p, rs[0], EncodeAll(rs[1..]) + rest), rs[1..], rest)
  }

  /** Reading `rs` completes the first `|rs|` pending handles, pairwise with
      the replies, and leaves the rest pending. */
  lemma {:induction false} AfterAllCompletes(p: Parser, rs: seq<Response>, rest: string)
    requires forall i :: 0 <= i < |rs| ==> WellFormed(rs[i])
    requires |rs| <= |p.pending|
    ensures AfterAll(p, rs, rest).pending == p.pending[|rs|..]
    ensures AfterAll(p, rs, rest).log == p.log + Completions(p.pending[..|rs|], rs)
    decreases |rs|
  {
    if rs != [] {
      var q := AfterReply(p, rs[0], EncodeAll(rs[1..]) + rest);
      AfterAllCompletes(q, rs[1..], rest);
      CompletionsCons(p.pending[..|rs|], rs);
      assert p.pending[..|rs|][1..] == q.pending[..|rs| - 1];
      assert q.pending[|rs| - 1..] == p.pending[|rs|..];
      assert q.log == p.log + [Resolution(p.pending[0], Expected(rs[0]))];
    }
  }

  lemma {:induction false} DrainAll(p: Parser, rs: seq<Response>, rest: string)
    requires Idle(p) && p.buffer == EncodeAll(rs) + rest
    requires forall i :: 0 <= i < |rs| ==> WellFormed(rs[i])
    requires |rs| <= |p.pending|
    ensures Drain(p) == Drain(AfterAll(p, rs, rest))
    decreases |rs|
  {
    if rs != [] {
      var after := EncodeAll(rs[1..]) + rest;
      assert p.buffer == Encode(rs[0]) + after;
      ReplyDecodes(p, rs[0], after);
      DrainAll(AfterReply(p, rs[0], after), rs[1..], rest);
    } else {
      assert p == AfterAll(p, rs, rest);
    }
  }

  /** Decoding theorem: a buffer holding well-formed replies, with at least as
      many handles pending, completes the oldest handles one per reply in
      order, with the outcome each reply carries; the handler does not throw,
      the buffer ends empty and the parser idle. */
  lemma DecodeAll(p: Parser, rs: seq<Response>)
    requires Idle(p) && p.buffer == EncodeAll(rs)
    requires forall i :: 0 <= i < |rs| ==> WellFormed(rs[i])
    requires |rs| <= |p.pending|
    ensures !Drain(p).threw
    ensures Drain(p).state.buffer == "" && Idle(Drain(p).state)
    ensures Drain(p).state.pending == p.pending[|rs|..]
    ensures Drain(p).state.log == p.log + Completions(p.pending[..|rs|], rs)
  {
    assert p.buffer == EncodeAll(rs) + "";
    DrainAll(p, rs, "");
    DrainEmpty(AfterAll(p, rs, ""));
    AfterAllCompletes(p, rs, "");
  }

  /** The replies decode the same however the network splits them into two
      deliveries. */
  lemma DecodeAnySplit(p: Parser, rs: seq<Response>, a: string, b: string)
    requires Idle(p) && p.buffer == "" && a + b == EncodeAll(rs)
    requires forall i :: 0 <= i < |rs| ==> WellFormed(rs[i])
    requires |rs| <= |p.pending|
    ensures !Feed(p, a).threw
    ensures Feed(Feed(p, a).state, b).state.pending == p.pending[|rs|..]
    ensures Feed(Feed(p, a).state, b).state.log == p.log + Completions(p.pending[..|rs|], rs)
  {
    assert Extend(p, a + b) == p.(buffer := EncodeAll(rs));
    DecodeAll(p.(buffer := EncodeAll(rs)), rs);
    FeedSplit(p, a, b);
  }

  lemma ExampleEncoding()
    ensures EncodeAll([Status("OK"), Integer(5), Bulk("abc")]) == "+OK\r\n:5\r\n$3\r\nabc\r\n"
    ensures WellFormed(Status("OK"))
  {
    var rs := [Status("OK"), Integer(5), Bulk("abc")];
    assert IntToString(5) == "5";
    assert IntToString(3) == "3";
    assert Encode(rs[0]) == "+OK\r\n";
    assert Encode(rs[1]) == ":5\r\n";
    assert Encode(rs[2]) == "$3\r\nabc\r\n";
    assert EncodeAll(rs[2..]) == Encode(rs[2]) + EncodeAll([]);
    assert EncodeAll(rs[1..]) == Encode(rs[1]) + EncodeAll(rs[2..]);
    assert NoCrlf("OK");
  }

  lemma ExampleCompletions(h0: nat, h1: nat, h2: nat)
    ensures WellFormed(Status("OK"))
    ensures Completions([h0, h1, h2], [Status("OK"), Integer(5), Bulk("abc")])
         == [Resolution(h0, Success(Str("OK"))), Resolution(h1, Success(Int(5))),
             Resolution(h2, Success(Str("abc")))]
  {
    var rs := [Status("OK"), Integer(5), Bulk("abc")];
    assert NoCrlf("OK");
    CompletionsCons([h0, h1, h2], rs);
    CompletionsCons([h1, h2], rs[1..]);
    CompletionsCons([h2], rs[2..]);
    assert [h0, h1, h2][1..] == [h1, h2] && [h1, h2][1..] == [h2];
    assert rs[1..][1..] == rs[2..];
  }

  /** The examples of the wire format: `+OK`, `:5` and `$3 abc`, fed to an
      idle client with three requests pending, complete them in order with
      "OK", 5 and "abc". */
  lemma Examples(p: Parser)
    requires Idle(p) && p.buffer == "" && |p.pending| == 3
    ensures Feed(p, "+OK\r\n:5\r\n$3\r\nabc\r\n").state.log
        == p.log + [Resolution(p.pending[0], Success(Str("OK"))), Resolution(p.pending[1], Success(Int(5))),
                    Resolution(p.pending[2], Success(Str("abc")))]
  {
    var rs := [Status("OK"), Integer(5), Bulk("abc")];
    ExampleEncoding();
    var q := Extend(p, "+OK\r\n:5\r\n$3\r\nabc\r\n");
    DecodeAll(q, rs);
    assert p.pending[..3] == [p.pending[0], p.pending[1], p.pending[2]];
    ExampleCompletions(p.pending[0], p.pending[1], p.pending[2]);
  }
}
