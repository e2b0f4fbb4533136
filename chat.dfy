/** The chat server of server.js: channels that keep a message log and a
    member table, sessions that hold at most one parked long-poll, and the
    server's tables of channels and sessions with the sweep that expires idle
    sessions. The Redis list behind each channel is the channel's `log`, read
    and appended synchronously; clocks and random ids are parameters. */
module Chat {
  import opened JsText
  import opened Wrappers

  const CALLBACK_TIMEOUT: int := 30 * 1000
  const SESSION_TIMEOUT: int := 2 * CALLBACK_TIMEOUT
  const DEFAULT_CHANNEL: string := "default"
  const MAX_NICK_LENGTH: int := 50

  /** The properties every plain JavaScript object, `channels` included,
      inherits from `Object.prototype`: reading one of them gives a function,
      or the prototype itself for `__proto__`, never `undefined`. */
  const INHERITED: set<string> := {
    "constructor", "hasOwnProperty", "isPrototypeOf", "propertyIsEnumerable",
    "toLocaleString", "toString", "valueOf", "__proto__",
    "__defineGetter__", "__defineSetter__", "__lookupGetter__", "__lookupSetter__"
  }

  datatype Kind = Msg | Join | Part

  /** A chat message; channel messages carry their position in the log as
      `index`, system messages have none. */
  datatype Message = Message(index: Option<nat>, nick: string, kind: Kind, text: string, timestamp: int)

  /** A long-poll callback invoked with `messages`; `poll` names the request. */
  datatype Answer = Answer(poll: nat, messages: seq<Message>)

  /** `session.callback`: the parked long-poll and when it was parked. */
  datatype Parked = Parked(timestamp: int, poll: nat)

  /** An entry of a channel's member table. */
  datatype Member = Member(timestamp: int, session: Session)

  /** `LRANGE key start -1`: from `start` (counted from the end when negative,
      clamped at 0) to the last element. */
  function RangeToEnd(log: seq<Message>, start: int): (r: seq<Message>)
    ensures 0 <= start <= |log| ==> r == log[start..]
    ensures -|log| <= start < 0 ==> r == log[|log| + start..]
    ensures start < -|log| ==> r == log
    ensures start > |log| ==> r == []
  {
    var from := if start < 0 then |log| + start else start;
    if from < 0 then log else if from >= |log| then [] else log[from..]
  }

  /** What `deliver(messages)` does to `s`: a parked callback is answered with
      `messages` and cleared; with nothing parked, nothing happens. */
  twostate predicate Delivered(s: Session, new messages: seq<Message>)
    reads s
  {
    match old(s.callback)
    case None => s.callback == None && s.answers == old(s.answers)
    case Some(p) => s.callback == None && s.answers == old(s.answers) + [Answer(p.poll, messages)]
  }

  /** What `sendSystemMessage(text)` does to `s`: the system message goes to
      a parked callback, or else is queued; never both. */
  twostate predicate Told(s: Session, text: string, now: int)
    reads s
  {
    var m := Message(None, "system", Msg, text, now);
    if old(s.callback).Some? then
      Delivered(s, [m]) && s.systemMessages == old(s.systemMessages)
    else
      Untouched(s) && s.systemMessages == old(s.systemMessages) + [m]
  }

  twostate predicate Untouched(s: Session)
    reads s
  {
    s.callback == old(s.callback) && s.answers == old(s.answers)
  }

  /** What `destroy` does to `s` and its channel `c`: `s` is no longer a
      member, "<nick> parted" is announced to the members that remain, and
      a callback parked by `s` itself is left as it was. */
  twostate predicate Parted(s: Session, c: Channel, now: int)
    reads s, c, c.Sessions()
  {
    && c.members == old(c.members) - {s.id}
    && c.Announced(s.nick, Kind.Part, s.nick + " parted", now)
    && Untouched(s)
  }

  class Session {
    const id: string
    const nick: string
    var channel: Channel
    var timestamp: int
    var callback: Option<Parked>
    var systemMessages: seq<Message>
    /** Every callback invocation so far, in order. */
    var answers: seq<Answer>

    constructor (id: string, nick: string, channel: Channel, now: int)
      ensures this.id == id && this.nick == nick && this.channel == channel && timestamp == now
      ensures callback == None && systemMessages == [] && answers == []
    {
      this.id := id;
      this.nick := nick;
      this.channel := channel;
      timestamp := now;
      callback := None;
      systemMessages := [];
      answers := [];
    }

    method Poke(now: int)
      modifies this`timestamp
      ensures timestamp == now
    {
      timestamp := now;
    }

    /** `deliver(messages)`: calls the parked callback at most once. */
    method Deliver(messages: seq<Message>)
      modifies this`callback, this`answers
      ensures Delivered(this, messages)
    {
      if callback.Some? {
        answers := answers + [Answer(callback.value.poll, messages)];
        callback := None;
      }
    }

    /** `sendSystemMessage(text)`: hand the message to a parked callback, or
        else queue it; never both. */
    method SendSystemMessage(text: string, now: int)
      modifies this`callback, this`answers, this`systemMessages
      ensures Told(this, text, now)
    {
      var message := Message(None, "system", Msg, text, now);
      if callback.Some? {
        Deliver([message]);
      } else {
        systemMessages := systemMessages + [message];
      }
    }

    /** `query(since, callback)` as written: the queued system messages are
        handed to the callback, then `this.systemMessages.clear()` throws,
        since JavaScript arrays have no `clear` method, and the queue stays. */
    method QueryAsWritten(since: Parsed, poll: nat, now: int) returns (threw: bool)
      modifies this`callback, this`answers, this`systemMessages
      ensures threw <==> old(systemMessages) != []
      ensures threw ==> answers == old(answers) + [Answer(poll, old(systemMessages))]
                        && systemMessages == old(systemMessages) && callback == old(callback)
      ensures !threw ==> QueriedChannel(since, poll, now)
    {
      if systemMessages != [] {
        answers := answers + [Answer(poll, systemMessages)];
        return true;
      }
      threw := false;
      var messages := channel.Query(since);
      if messages != [] {
        answers := answers + [Answer(poll, messages)];
      } else {
        callback := Some(Parked(now, poll));
      }
    }

    /** The channel half of `query`: a non-empty answer from the channel goes
        straight to the callback; an empty one parks the callback, replacing
        any parked before. */
    twostate predicate QueriedChannel(since: Parsed, poll: nat, now: int)
      reads this, channel
    {
      var messages := channel.Query(since);
      && systemMessages == old(systemMessages)
      && (messages != [] ==> answers == old(answers) + [Answer(poll, messages)] && callback == old(callback))
      && (messages == [] ==> answers == old(answers) && callback == Some(Parked(now, poll)))
    }

    /** `query(since, callback)` with the queue emptied once its messages are
        handed over. */
    method Query(since: Parsed, poll: nat, now: int)
      modifies this`callback, this`answers, this`systemMessages
      ensures old(systemMessages) != [] ==>
        answers == old(answers) + [Answer(poll, old(systemMessages))]
        && systemMessages == [] && callback == old(callback)
      ensures old(systemMessages) == [] ==> QueriedChannel(since, poll, now)
    {
      if systemMessages != [] {
        answers := answers + [Answer(poll, systemMessages)];
        systemMessages := [];
      } else {
        var messages := channel.Query(since);
        if messages != [] {
          answers := answers + [Answer(poll, messages)];
        } else {
          callback := Some(Parked(now, poll));
        }
      }
    }
  }

  /** A run of the unfixed `query`: one system message is queued, and two
      polls in a row both receive it. */
  method SystemMessageTwice() returns (first: seq<Answer>, second: seq<Answer>)
    ensures first == [Answer(0, [Message(None, "system", Msg, "hello", 0)])]
    ensures second == first + [Answer(1, [Message(None, "system", Msg, "hello", 0)])]
  {
    var c := new Channel("c");
    var s := new Session("1", "ann", c, 0);
    s.SendSystemMessage("hello", 0);
    assert s.systemMessages == [Message(None, "system", Msg, "hello", 0)];
    assert s.answers == [];
    var threw := s.QueryAsWritten(Number(0), 0, 0);
    first := s.answers;
    threw := s.QueryAsWritten(Number(0), 1, 0);
    second := s.answers;
  }

  /** With the queue emptied, the second poll reads the channel instead. */
  method SystemMessageOnce() returns (first: seq<Answer>, second: seq<Answer>)
    ensures first == [Answer(0, [Message(None, "system", Msg, "hello", 0)])]
    ensures second == first
  {
    var c := new Channel("c");
    var s := new Session("1", "ann", c, 0);
    s.SendSystemMessage("hello", 0);
    assert s.systemMessages == [Message(None, "system", Msg, "hello", 0)];
    assert s.answers == [];
    s.Query(Number(0), 0, 0);
    first := s.answers;
    s.Query(Number(0), 1, 0);
    second := s.answers;
  }

  /** The member filed under `id` is the session with that id. */
  ghost predicate KeyedBy(members: map<string, Member>, id: string)
    requires id in members
  {
    members[id].session.id == id
  }

  /** The message at position `i` of a log carries `i` as its index. */
  ghost predicate Numbered(log: seq<Message>, i: int)
    requires 0 <= i < |log|
  {
    log[i].index == Some(i)
  }

  class Channel {
    const name: string
    var members: map<string, Member>
    var nMembers: int
    /** The channel's Redis list. */
    var log: seq<Message>

    /** The member count is the size of the member table, every member is
        filed under its own session id, and every logged message carries its
        own position as `index`. */
    ghost predicate Valid()
      reads this`members, this`nMembers, this`log
    {
      && nMembers == |members|
      && (forall id {:trigger KeyedBy(members, id)} :: id in members ==> KeyedBy(members, id))
      && (forall i {:trigger Numbered(log, i)} :: 0 <= i < |log| ==> Numbered(log, i))
    }

    /** The member sessions. */
    function Sessions(): set<Session>
      reads this
    {
      set id | id in members :: members[id].session
    }

    constructor (name: string)
      ensures this.name == name && members == map[] && nMembers == 0 && log == []
      ensures Valid()
    {
      this.name := name;
      members := map[];
      nMembers := 0;
      log := [];
    }

    function GetNumberOfMembers(): (k: int)
      requires Valid()
      reads this
      ensures k == |members|
    {
      nMembers
    }

    /** `nicks` holds the nick of every member exactly once, in the order
        `order` lists their ids. */
    ghost predicate Listing(order: seq<string>, nicks: seq<string>)
      reads this`members
    {
      && |order| == |nicks| == |members|
      && (forall i :: 0 <= i < |order| ==> order[i] in members && nicks[i] == members[order[i]].session.nick)
      && (forall i, j :: 0 <= i < j < |order| ==> order[i] != order[j])
    }

    /** `getMembers()`: the members' nicks, in the order of the `for-in` over
        the member table. */
    method GetMembers() returns (nicks: seq<string>, ghost order: seq<string>)
      ensures Listing(order, nicks)
    {
      var ids := members.Keys;
      nicks, order := [], [];
      while ids != {}
        invariant ids <= members.Keys
        invariant |order| == |nicks|
        invariant forall i :: 0 <= i < |order| ==> order[i] in members - ids && nicks[i] == members[order[i]].session.nick
        invariant forall i, j :: 0 <= i < j < |order| ==> order[i] != order[j]
        invariant |order| + |ids| == |members|
        decreases ids
      {
        var id :| id in ids;
        nicks, order := nicks + [members[id].session.nick], order + [id];
        ids := ids - {id};
      }
      assert forall i :: 0 <= i < |order| ==> order[i] in members;
    }

    /** The loop of `appendMessage` handing `messages` to every member. */
    method Broadcast(messages: seq<Message>)
      requires Valid()
      modifies Sessions()`callback, Sessions()`answers
      ensures forall id :: id in members ==> Delivered(members[id].session, messages)
      ensures forall x: Session {:trigger NoNewParking(x)} :: old(allocated(x)) ==> NoNewParking(x)
    {
      var ids := members.Keys;
      while ids != {}
        invariant ids <= members.Keys
        invariant forall id :: id in members && id !in ids ==> Delivered(members[id].session, messages)
        invariant forall id :: id in ids ==> Untouched(members[id].session)
        invariant forall x: Session {:trigger NoNewParking(x)} :: old(allocated(x)) ==> NoNewParking(x)
        decreases ids
      {
        var id :| id in ids;
        assert forall j :: j in members ==> KeyedBy(members, j);
        members[id].session.Deliver(messages);
        ids := ids - {id};
      }
    }

    /** A `kind` message from `nick` with `text` was logged under the next
        index and delivered to every member. */
    twostate predicate Announced(new nick: string, new kind: Kind, new text: string, now: int)
      reads this, Sessions()
    {
      && log == old(log) + [Message(Some(|old(log)|), nick, kind, text, now)]
      && forall id :: id in members ==>
           var m := members[id].session; old(allocated(m)) ==> Delivered(m, [log[|log| - 1]])
    }

    /** `appendMessage(nick, type, text)`: log the message under the next
        index and deliver it to every member. */
    method AppendMessage(nick: string, kind: Kind, text: string, now: int)
      requires Valid()
      modifies this`log, Sessions()`callback, Sessions()`answers
      ensures Valid() && Announced(nick, kind, text, now)
      ensures forall x: Session {:trigger NoNewParking(x)} :: old(allocated(x)) ==> NoNewParking(x)
    {
      var m := Message(Some(|log|), nick, kind, text, now);
      log := log + [m];
      forall i | 0 <= i < |log|
        ensures Numbered(log, i)
      {
        if i < |log| - 1 {
          assert old(Numbered(log, i));
        }
      }
      Broadcast([m]);
    }

    /** `join(session, text)`: a session that is not a member yet is added,
        counted, and announced to every member, itself included. */
    method Join(s: Session, text: string, now: int)
      requires Valid()
      modifies this`members, this`nMembers, this`log, Sessions()`callback, Sessions()`answers
      modifies s`callback, s`answers
      ensures Valid()
      ensures s.id in old(members) ==> members == old(members) && log == old(log)
      ensures s.id in old(members) ==> forall id :: id in members ==> Untouched(members[id].session)
      ensures s.id !in old(members) ==>
        members == old(members)[s.id := Member(now, s)] && Announced(s.nick, Kind.Join, text, now)
      ensures forall x: Session {:trigger NoNewParking(x)} :: old(allocated(x)) ==> NoNewParking(x)
    {
      if s.id !in members {
        members := members[s.id := Member(now, s)];
        nMembers := nMembers + 1;
        forall id | id in members
          ensures KeyedBy(members, id)
        {
          if id != s.id {
            assert old(KeyedBy(members, id));
          }
        }
        AppendMessage(s.nick, Kind.Join, text, now);
      }
    }

    /** `leave(session, text)`: a member is removed and uncounted, and its
        departure is announced to the members that remain. */
    method Leave(s: Session, text: string, now: int)
      requires Valid()
      modifies this`members, this`nMembers, this`log, Sessions()`callback, Sessions()`answers
      ensures Valid()
      ensures s.id !in old(members) ==> members == old(members) && log == old(log)
      ensures s.id !in old(members) ==> forall id :: id in members ==> Untouched(members[id].session)
      ensures s.id in old(members) ==>
        && members == old(members) - {s.id}
        && Announced(s.nick, Part, text, now)
        && Untouched(old(members)[s.id].session)
        && old(members)[s.id].session !in Sessions() && Sessions() <= old(Sessions())
      ensures forall x: Session {:trigger NoNewParking(x)} :: old(allocated(x)) ==> NoNewParking(x)
    {
      if s.id in members {
        assert KeyedBy(members, s.id);
        members := members - {s.id};
        nMembers := nMembers - 1;
        forall id | id in members
          ensures KeyedBy(members, id)
        {
          assert old(KeyedBy(members, id));
        }
        assert old(members)[s.id].session !in Sessions();
        AppendMessage(s.nick, Part, text, now);
      }
    }

    /** `query(since, callback)`: the log from `since` to the end when `since`
        is below the last position, and nothing otherwise. */
    function Query(since: Parsed): (r: seq<Message>)
      reads this
      ensures since.Number? && 0 <= since.v < |log| - 1 ==> r == log[since.v..]
      ensures since.Number? && since.v < 0 ==> r == log[if -since.v <= |log| then |log| + since.v else 0..]
      ensures (since.NaN? || since.v >= |log| - 1) ==> r == []
    {
      match since
      case NaN => []
      case Number(k) => if k < |log| - 1 then RangeToEnd(log, k) else []
    }
  }


  /** What `switchTo` does to the channels once it has found the target
      `c`: `s` leaves its channel, which announces "left <name>" to the
      members that remain, then points at `c` and joins it, which announces
      "enters <name>" to all its members, `s` included. */
  method Move(s: Session, c: Channel, now: int)
    requires s.channel != c && s.channel.Valid() && c.Valid()
    requires s.id in s.channel.members && s.channel.members[s.id].session == s && s.id !in c.members
    requires s.channel.Sessions() !! c.Sessions()
    modifies s`channel, s`callback, s`answers
    modifies s.channel`members, s.channel`nMembers, s.channel`log, s.channel.Sessions()`callback, s.channel.Sessions()`answers
    modifies c`members, c`nMembers, c`log, c.Sessions()`callback, c.Sessions()`answers
    ensures s.channel == c && old(s.channel).Valid() && c.Valid()
    ensures old(s.channel).members == old(s.channel.members) - {s.id}
    ensures old(s.channel).Announced(s.nick, Part, "left " + old(s.channel.name), now)
    ensures c.members == old(c.members)[s.id := Member(now, s)]
    ensures c.Announced(s.nick, Kind.Join, "enters " + c.name, now)
  {
    var c0 := s.channel;
    c0.Leave(s, "left " + c0.name, now);
    label left:
    s.channel := c;
    c.Join(s, "enters " + c.name, now);
    // The join was announced from the state after the leave, which left
    // the callbacks of `s` and of the members of `c` alone.
    forall id | id in c.members
      ensures var m := c.members[id].session; old(allocated(m)) ==> Delivered(m, [c.log[|c.log| - 1]])
    {
      var m := c.members[id].session;
      assert old@left(m.callback) == old(m.callback) && old@left(m.answers) == old(m.answers);
    }
  }

  /** What `switchTo` does to the channels when no channel is called
      `name`: `s` leaves its channel as in `Move`, then a channel called
      `name` is created, `s` points at it and joins it, and "enters <name>"
      is its first message, delivered to `s`. */
  method MoveToNew(s: Session, name: string, now: int) returns (c: Channel)
    requires s.channel.Valid() && s.id in s.channel.members && s.channel.members[s.id].session == s
    modifies s`channel, s`callback, s`answers
    modifies s.channel`members, s.channel`nMembers, s.channel`log, s.channel.Sessions()`callback, s.channel.Sessions()`answers
    ensures fresh(c) && c.name == name && s.channel == c && old(s.channel).Valid() && c.Valid()
    ensures old(s.channel).members == old(s.channel.members) - {s.id}
    ensures old(s.channel).Announced(s.nick, Part, "left " + old(s.channel.name), now)
    ensures c.members == map[s.id := Member(now, s)]
    ensures c.log == [Message(Some(0), s.nick, Kind.Join, "enters " + name, now)]
    ensures Delivered(s, c.log)
  {
    var c0 := s.channel;
    c0.Leave(s, "left " + c0.name, now);
    c := new Channel(name);
    label created:
    s.channel := c;
    c.Join(s, "enters " + name, now);
    // Leaving and creating the channel changed no callback of `s`.
    assert old@created(s.callback) == old(s.callback) && old@created(s.answers) == old(s.answers);
    assert c.members[s.id].session == s && c.log == [c.log[|c.log| - 1]];
  }

  /** The characters the nick check `/[^\w_\-^!]/` lets through: ASCII
      letters and digits, `_`, `-`, `^` and `!`. */
  predicate IsNickChar(c: char)
  {
    ('a' <= c <= 'z') || ('A' <= c <= 'Z') || ('0' <= c <= '9') || c == '_' || c == '-' || c == '^' || c == '!'
  }

  predicate NickChars(nick: string)
  {
    forall i :: 0 <= i < |nick| ==> IsNickChar(nick[i])
  }

  /** Idle longer than SESSION_TIMEOUT. */
  predicate Expired(timestamp: int, now: int)
  {
    now - timestamp > SESSION_TIMEOUT
  }

  /** A callback parked longer than CALLBACK_TIMEOUT. */
  predicate Stale(callback: Option<Parked>, now: int)
  {
    callback.Some? && now - callback.value.timestamp > CALLBACK_TIMEOUT
  }

  /** The sessions of `filed` a sweep keeps once it has still to visit
      `ids`: the unvisited ones and those not idle too long by their
      timestamps `stamps`. */
  function Kept(filed: map<string, Session>, stamps: map<string, int>, ids: set<string>, now: int): (r: map<string, Session>)
    requires filed.Keys == stamps.Keys
  {
    map id | id in filed && (id in ids || !Expired(stamps[id], now)) :: filed[id]
  }

  /** Visiting `id` drops it when it is idle too long and keeps it
      otherwise. */
  lemma KeptStep(filed: map<string, Session>, stamps: map<string, int>, ids: set<string>, id: string, now: int)
    requires filed.Keys == stamps.Keys && id in filed && id in ids
    ensures Expired(stamps[id], now) ==> Kept(filed, stamps, ids - {id}, now) == Kept(filed, stamps, ids, now) - {id}
    ensures !Expired(stamps[id], now) ==> Kept(filed, stamps, ids - {id}, now) == Kept(filed, stamps, ids, now)
  {
  }

  /** Before the sweep visits anything, it keeps everything. */
  lemma KeptAll(filed: map<string, Session>, stamps: map<string, int>, now: int)
    requires filed.Keys == stamps.Keys
    ensures Kept(filed, stamps, filed.Keys, now) == filed
  {
  }

  lemma KeptWithin(filed: map<string, Session>, stamps: map<string, int>, ids: set<string>, now: int)
    requires filed.Keys == stamps.Keys
    ensures Kept(filed, stamps, ids, now).Values <= filed.Values
  {
  }

  /** Nothing parked since the start of the call, and the timestamp kept:
      `s` is as it was, or the callback parked then has been answered once
      and cleared. */
  twostate predicate NoNewParking(s: Session)
    reads s
  {
    && s.timestamp == old(s.timestamp)
    && AtMostOnce(old(s.callback), old(s.answers), s.callback, s.answers)
  }

  /** From `callback0` and `answers0` to `callback` and `answers`: nothing
      changed, or the callback parked at first got one answer and was
      cleared. */
  predicate AtMostOnce(callback0: Option<Parked>, answers0: seq<Answer>, callback: Option<Parked>, answers: seq<Answer>)
  {
    || (callback == callback0 && answers == answers0)
    || (&& callback0.Some? && callback == None && |answers| == |answers0| + 1
        && answers[..|answers0|] == answers0 && answers[|answers0|].poll == callback0.value.poll)
  }

  /** Answering at most once, twice over, is still answering at most once:
      the second step can only answer a callback the first left parked. */
  lemma AtMostOnceTwice(c0: Option<Parked>, a0: seq<Answer>, c1: Option<Parked>, a1: seq<Answer>,
                        c2: Option<Parked>, a2: seq<Answer>)
    requires AtMostOnce(c0, a0, c1, a1) && AtMostOnce(c1, a1, c2, a2)
    ensures AtMostOnce(c0, a0, c2, a2)
  {
  }

  /** From `log0` to `log`: the log kept its entries and gained only
      "<nick> parted" messages stamped `now`. */
  predicate PartedOnly(log0: seq<Message>, log: seq<Message>, now: int)
  {
    && |log0| <= |log| && log[..|log0|] == log0
    && forall i :: |log0| <= i < |log| ==>
      && log[i].kind == Part && log[i].text == log[i].nick + " parted" && log[i].timestamp == now
  }

  lemma PartedOnlyGrows(log0: seq<Message>, log: seq<Message>, nick: string, index: Option<nat>, now: int)
    requires PartedOnly(log0, log, now)
    ensures PartedOnly(log0, log + [Message(index, nick, Part, nick + " parted", now)], now)
  {
    assert (log + [Message(index, nick, Part, nick + " parted", now)])[..|log0|] == log[..|log0|];
  }


  /** Session `id` is filed under its own id, its channel `places[id]` is
      the one filed under that channel's name, and it sits in that channel's
      member table `tables[name]` under its id. */
  ghost predicate Seated(id: string, channels: map<string, Channel>, tables: map<string, map<string, Member>>,
                         sessions: map<string, Session>, places: map<string, Channel>)
    requires tables.Keys == channels.Keys && places.Keys == sessions.Keys && id in sessions
  {
    var c := places[id];
    && sessions[id].id == id
    && c.name in channels && channels[c.name] == c
    && id in tables[c.name] && tables[c.name][id].session == sessions[id]
  }

  /** Sessions `i` and `j`, when distinct, have distinct nicks. */
  ghost predicate NicksDiffer(sessions: map<string, Session>, i: string, j: string)
    requires i in sessions && j in sessions
  {
    i != j ==> sessions[i].nick != sessions[j].nick
  }

  ghost predicate NicksUnique(sessions: map<string, Session>)
  {
    forall i, j {:trigger NicksDiffer(sessions, i, j)} :: i in sessions && j in sessions ==> NicksDiffer(sessions, i, j)
  }

  /** The channel filed under `name` carries that name. */
  ghost predicate Named(channels: map<string, Channel>, name: string)
    requires name in channels
  {
    channels[name].name == name
  }

  /** Member `id` of the table filed under `name` is a session whose channel
      is the one filed under `name`. */
  ghost predicate Housed(channels: map<string, Channel>, tables: map<string, map<string, Member>>,
                         places: map<string, Channel>, name: string, id: string)
    requires tables.Keys == channels.Keys && name in tables && id in tables[name]
  {
    id in places && places[id] == channels[name]
  }

  /** The server's tables, given the channels' member tables by channel name
      and the sessions' channels by session id: the default channel exists;
      channels are filed under their names; every session sits in its own
      channel, and every member of a channel is a live session of that
      channel; nicks are unique. */
  ghost predicate Coherent(channels: map<string, Channel>, tables: map<string, map<string, Member>>,
                           sessions: map<string, Session>, places: map<string, Channel>)
    requires tables.Keys == channels.Keys && places.Keys == sessions.Keys
  {
    && DEFAULT_CHANNEL in channels
    && (forall name {:trigger Named(channels, name)} :: name in channels ==> Named(channels, name))
    && (forall id {:trigger Seated(id, channels, tables, sessions, places)} ::
          id in sessions ==> Seated(id, channels, tables, sessions, places))
    && (forall name, id {:trigger Housed(channels, tables, places, name, id)} ::
          name in tables && id in tables[name] ==> Housed(channels, tables, places, name, id))
    && NicksUnique(sessions)
  }

  /** Filing a new empty channel under its own free name keeps coherence. */
  lemma ChannelAdded(channels: map<string, Channel>, tables: map<string, map<string, Member>>,
                     sessions: map<string, Session>, places: map<string, Channel>, c: Channel)
    requires tables.Keys == channels.Keys && places.Keys == sessions.Keys
    requires Coherent(channels, tables, sessions, places) && c.name !in channels
    ensures Coherent(channels[c.name := c], tables[c.name := map[]], sessions, places)
  {
    var channels', tables' := channels[c.name := c], tables[c.name := map[]];
    forall name | name in channels'
      ensures Named(channels', name)
    {
      if name != c.name {
        assert Named(channels, name);
      }
    }
    forall id | id in sessions
      ensures Seated(id, channels', tables', sessions, places)
    {
      assert Seated(id, channels, tables, sessions, places);
    }
    forall name, id | name in tables' && id in tables'[name]
      ensures Housed(channels', tables', places, name, id)
    {
      assert Housed(channels, tables, places, name, id);
    }
  }

  /** Filing a new session under a free id, with a nick no other session
      has, as a member of the default channel keeps coherence. */
  lemma SessionAdded(channels: map<string, Channel>, tables: map<string, map<string, Member>>,
                     sessions: map<string, Session>, places: map<string, Channel>, s: Session, t: int)
    requires tables.Keys == channels.Keys && places.Keys == sessions.Keys
    requires Coherent(channels, tables, sessions, places)
    requires s.id !in sessions && forall id :: id in sessions ==> sessions[id].nick != s.nick
    ensures var d := DEFAULT_CHANNEL;
      Coherent(channels, tables[d := tables[d][s.id := Member(t, s)]], sessions[s.id := s], places[s.id := channels[d]])
  {
    var d := DEFAULT_CHANNEL;
    var tables', sessions', places' := tables[d := tables[d][s.id := Member(t, s)]], sessions[s.id := s], places[s.id := channels[d]];
    assert Named(channels, d);
    forall name, id | name in tables && id in tables[name]
      ensures id in sessions
    {
      assert Housed(channels, tables, places, name, id);
    }
    forall id | id in sessions'
      ensures Seated(id, channels, tables', sessions', places')
    {
      if id != s.id {
        assert Seated(id, channels, tables, sessions, places);
      }
    }
    forall name, id | name in tables' && id in tables'[name]
      ensures Housed(channels, tables', places', name, id)
    {
      if id != s.id {
        assert Housed(channels, tables, places, name, id);
      }
    }
    forall i, j | i in sessions' && j in sessions'
      ensures NicksDiffer(sessions', i, j)
    {
      if i != s.id && j != s.id {
        assert NicksDiffer(sessions, i, j);
      }
    }
  }

  /** Dropping a session from `sessions` and from its channel's member table
      keeps coherence. */
  lemma SessionRemoved(channels: map<string, Channel>, tables: map<string, map<string, Member>>,
                       sessions: map<string, Session>, places: map<string, Channel>, id: string, n: string)
    requires tables.Keys == channels.Keys && places.Keys == sessions.Keys
    requires Coherent(channels, tables, sessions, places) && id in sessions && n == places[id].name
    ensures n in tables && tables[n := tables[n] - {id}].Keys == channels.Keys && (places - {id}).Keys == (sessions - {id}).Keys
    ensures Coherent(channels, tables[n := tables[n] - {id}], sessions - {id}, places - {id})
  {
    assert Seated(id, channels, tables, sessions, places);
    var tables', sessions', places' := tables[n := tables[n] - {id}], sessions - {id}, places - {id};
    forall j | j in sessions'
      ensures Seated(j, channels, tables', sessions', places')
    {
      assert Seated(j, channels, tables, sessions, places);
    }
    forall name, j | name in tables' && j in tables'[name]
      ensures Housed(channels, tables', places', name, j)
    {
      assert Housed(channels, tables, places, name, j);
      assert Named(channels, name);
    }
    forall i, j | i in sessions' && j in sessions'
      ensures NicksDiffer(sessions', i, j)
    {
      assert NicksDiffer(sessions, i, j);
    }
  }

  /** Moving a session out of its channel into the channel filed under
      another name keeps coherence. */
  lemma SessionMoved(channels: map<string, Channel>, tables: map<string, map<string, Member>>,
                     sessions: map<string, Session>, places: map<string, Channel>, id: string, n: string, name: string, t: int)
    requires tables.Keys == channels.Keys && places.Keys == sessions.Keys
    requires Coherent(channels, tables, sessions, places) && id in sessions && n == places[id].name
    requires name in channels && channels[name] != places[id]
    ensures n in tables && tables[n := tables[n] - {id}][name := tables[name][id := Member(t, sessions[id])]].Keys == channels.Keys
    ensures places[id := channels[name]].Keys == sessions.Keys
    ensures Coherent(channels, tables[n := tables[n] - {id}][name := tables[name][id := Member(t, sessions[id])]],
                     sessions, places[id := channels[name]])
  {
    assert Seated(id, channels, tables, sessions, places);
    assert Named(channels, name);
    var tables' := tables[n := tables[n] - {id}][name := tables[name][id := Member(t, sessions[id])]];
    var places' := places[id := channels[name]];
    assert n != name;
    forall j | j in sessions
      ensures Seated(j, channels, tables', sessions, places')
    {
      assert Seated(j, channels, tables, sessions, places);
      if j != id {
        var m := places[j].name;
        assert j in tables'[m] && tables'[m][j] == tables[m][j];
      }
    }
    forall m, j | m in tables' && j in tables'[m]
      ensures Housed(channels, tables', places', m, j)
    {
      if j in tables[m] {
        assert Housed(channels, tables, places, m, j);
        assert Named(channels, m);
      }
    }
  }

  /** Every member of a channel is the live session filed under its id, and
      that session's channel is this one. */
  lemma MembersSeated(channels: map<string, Channel>, tables: map<string, map<string, Member>>,
                      sessions: map<string, Session>, places: map<string, Channel>, name: string)
    requires tables.Keys == channels.Keys && places.Keys == sessions.Keys
    requires Coherent(channels, tables, sessions, places) && name in channels
    ensures forall j :: j in tables[name] ==>
      j in sessions && tables[name][j].session == sessions[j] && places[j] == channels[name]
  {
    assert Named(channels, name);
    forall j | j in tables[name]
      ensures j in sessions && tables[name][j].session == sessions[j] && places[j] == channels[name]
    {
      assert Housed(channels, tables, places, name, j);
      assert Seated(j, channels, tables, sessions, places);
    }
  }

  /** A session is a member of its own channel and of no other. */
  lemma MemberOfOneChannel(channels: map<string, Channel>, tables: map<string, map<string, Member>>,
                           sessions: map<string, Session>, places: map<string, Channel>, id: string, name: string)
    requires tables.Keys == channels.Keys && places.Keys == sessions.Keys
    requires Coherent(channels, tables, sessions, places) && id in sessions && name in channels
    ensures id in tables[name] <==> channels[name] == places[id]
  {
    assert Seated(id, channels, tables, sessions, places);
    assert Named(channels, name);
    if id in tables[name] {
      assert Housed(channels, tables, places, name, id);
    }
  }

  /** A session is not the session of any member of a channel it is not a
      member of. */
  lemma NotAMember(channels: map<string, Channel>, tables: map<string, map<string, Member>>,
                   sessions: map<string, Session>, places: map<string, Channel>, id: string, name: string)
    requires tables.Keys == channels.Keys && places.Keys == sessions.Keys
    requires Coherent(channels, tables, sessions, places) && id in sessions && name in channels
    requires id !in tables[name]
    ensures forall j :: j in tables[name] ==> tables[name][j].session != sessions[id]
  {
    assert Seated(id, channels, tables, sessions, places);
    MembersSeated(channels, tables, sessions, places, name);
    forall j | j in tables[name]
      ensures tables[name][j].session != sessions[id]
    {
      assert Seated(j, channels, tables, sessions, places);
    }
  }

  class Server {
    var channels: map<string, Channel>
    var sessions: map<string, Session>
    /** The member table of every channel, by channel name. */
    ghost var tables: map<string, map<string, Member>>
    /** The channel of every session, by session id. */
    ghost var places: map<string, Channel>

    /** The channel filed under `name` is consistent and its member table
        is `tables[name]`. */
    ghost predicate Filed(name: string)
      requires name in channels && name in tables
      reads this, {channels[name]}`members, {channels[name]}`nMembers, {channels[name]}`log
    {
      channels[name].members == tables[name] && channels[name].Valid()
    }

    /** Session `id` points to the channel `places[id]`. */
    ghost predicate Placed(id: string)
      requires id in sessions && id in places
      reads this, {sessions[id]}`channel
    {
      sessions[id].channel == places[id]
    }

    /** The server's invariant except for the channels in `open`, whose
        member tables may differ from `tables`, and the sessions in
        `moving`, whose channel may differ from `places`: the state in the
        middle of an operation. */
    ghost predicate Holds(open: set<Channel>, moving: set<Session>)
      reads this, (channels.Values - open)`members, (channels.Values - open)`nMembers, (channels.Values - open)`log
      reads (sessions.Values - moving)`channel
    {
      && tables.Keys == channels.Keys && places.Keys == sessions.Keys
      && (forall name {:trigger Filed(name)} :: name in channels && channels[name] !in open ==> Filed(name))
      && (forall id {:trigger Placed(id)} :: id in sessions && sessions[id] !in moving ==> Placed(id))
      && Coherent(channels, tables, sessions, places)
    }

    /** Every channel is consistent, `tables` and `places` mirror the
        channels' member tables and the sessions' channels, and they are
        coherent; see `Coherent`. */
    ghost predicate Valid()
      reads this, channels.Values`members, channels.Values`nMembers, channels.Values`log, sessions.Values`channel
    {
      Holds({}, {})
    }

    function Default(): Channel
      requires DEFAULT_CHANNEL in channels
      reads this
    {
      channels[DEFAULT_CHANNEL]
    }

    ghost predicate NickInUse(nick: string)
      reads this
    {
      exists id :: id in sessions && sessions[id].nick == nick
    }

    /** The server at start-up: the default channel and no sessions. */
    constructor ()
      ensures Valid()
      ensures channels.Keys == {DEFAULT_CHANNEL} && fresh(channels[DEFAULT_CHANNEL])
      ensures channels[DEFAULT_CHANNEL].members == map[] && channels[DEFAULT_CHANNEL].log == []
      ensures sessions == map[]
    {
      var c := new Channel(DEFAULT_CHANNEL);
      channels := map[DEFAULT_CHANNEL := c];
      sessions := map[];
      tables := map[DEFAULT_CHANNEL := map[]];
      places := map[];
      new;
      assert Named(channels, DEFAULT_CHANNEL);
      assert Filed(DEFAULT_CHANNEL);
    }

    /** Session `id` is a member of its own channel, which is filed under its
        name and consistent, and every member of that channel is a live
        session. */
    lemma SessionSeated(id: string)
      requires Valid() && id in sessions
      ensures var c := sessions[id].channel;
        && c.name in channels && channels[c.name] == c && c.Valid()
        && id in c.members && c.members[id].session == sessions[id]
        && c.name in tables && c.members == tables[c.name] && c == places[id] && sessions[id].id == id
    {
      assert Seated(id, channels, tables, sessions, places);
      assert Placed(id) && Filed(places[id].name);
    }

    /** The members of the channel filed under `name` are live sessions, and
        the sessions that are not members are none of its member sessions. */
    lemma ChannelMembers(name: string)
      requires Valid() && name in channels
      ensures forall j :: j in channels[name].members ==> j in sessions && channels[name].members[j].session == sessions[j]
      ensures channels[name].Sessions() <= sessions.Values
      ensures forall id :: id in sessions && id !in channels[name].members ==> sessions[id] !in channels[name].Sessions()
    {
      var c := channels[name];
      assert Filed(name);
      MembersSeated(channels, tables, sessions, places, name);
      forall id | id in sessions && id !in c.members
        ensures sessions[id] !in c.Sessions()
      {
        NotAMember(channels, tables, sessions, places, id, name);
      }
    }

    /** The member sessions of a stored channel point at that channel. */
    lemma MembersPointHere(name: string)
      requires Valid() && name in channels
      ensures forall m :: m in channels[name].Sessions() ==> m.channel == channels[name]
    {
      ChannelMembers(name);
      forall m | m in channels[name].Sessions()
        ensures m.channel == channels[name]
      {
        var j :| j in channels[name].members && channels[name].members[j].session == m;
        assert Filed(name) && Placed(j);
        MemberOfOneChannel(channels, tables, sessions, places, j, name);
      }
    }

    /** Setting channels and sessions aside keeps the invariant for the rest. */
    lemma Opened(open: set<Channel>, moving: set<Session>)
      requires Valid()
      ensures Holds(open, moving)
    {
    }

    /** `createChannel(name)`, used only for names not yet taken. */
    method CreateChannel(name: string, ghost open: set<Channel>, ghost moving: set<Session>) returns (c: Channel)
      requires Holds(open, moving) && name !in channels
      modifies this`channels, this`tables
      ensures Holds(open, moving) && sessions == old(sessions) && places == old(places)
      ensures fresh(c) && c.name == name && c.members == map[] && c.log == [] && c.Valid()
      ensures channels == old(channels)[name := c] && tables == old(tables)[name := map[]]
    {
      c := new Channel(name);
      File(c, open, moving);
    }

    /** `channels[name] = channel`: a channel not filed yet is filed under
        its name, with an empty row in `tables`; one with members must be set
        aside. */
    method File(c: Channel, ghost open: set<Channel>, ghost moving: set<Session>)
      requires Holds(open, moving) && c.name !in channels && (c in open || (c.members == map[] && c.Valid()))
      modifies this`channels, this`tables
      ensures Holds(open, moving) && sessions == old(sessions) && places == old(places)
      ensures channels == old(channels)[c.name := c] && tables == old(tables)[c.name := map[]]
    {
      ChannelAdded(channels, tables, sessions, places, c);
      channels := channels[c.name := c];
      tables := tables[c.name := map[]];
      forall n | n in channels && channels[n] !in open
        ensures Filed(n)
      {
        if n != c.name {
          assert old(Filed(n));
        }
      }
      forall id | id in sessions && sessions[id] !in moving
        ensures Placed(id)
      {
        assert old(Placed(id));
      }
    }

    /** The loop over `sessions` looking for `nick`. */
    method FindNick(nick: string) returns (taken: bool)
      ensures taken <==> NickInUse(nick)
    {
      var ids := sessions.Keys;
      taken := false;
      while ids != {}
        invariant ids <= sessions.Keys
        invariant forall id :: id in sessions && id !in ids ==> sessions[id].nick != nick
        decreases ids
      {
        var id :| id in ids;
        if sessions[id].nick == nick {
          return true;
        }
        ids := ids - {id};
      }
    }

    /** `sessions[session.id] = session` for a new session of the default
        channel; its seat in that channel is filed ahead of the join. */
    method Register(nick: string, id: string, c: Channel, now: int) returns (s: Session)
      requires Valid() && id !in sessions && !NickInUse(nick) && c == Default()
      modifies this`sessions, this`tables, this`places
      ensures Holds({c}, {}) && channels == old(channels)
      ensures fresh(s) && s.id == id && s.nick == nick && s.channel == c
      ensures s.callback == None && s.answers == []
      ensures sessions == old(sessions)[id := s]
      ensures tables[DEFAULT_CHANNEL] == old(tables[DEFAULT_CHANNEL])[id := Member(now, s)]
    {
      s := new Session(id, nick, c, now);
      SessionAdded(channels, tables, sessions, places, s, now);
      sessions := sessions[id := s];
      tables := tables[DEFAULT_CHANNEL := tables[DEFAULT_CHANNEL][id := Member(now, s)]];
      places := places[id := c];
      forall n | n in channels && channels[n] !in {c}
        ensures Filed(n)
      {
        assert old(Filed(n));
      }
      forall j | j in sessions
        ensures Placed(j)
      {
        if j != id {
          assert old(Placed(j));
        }
      }
    }

    /** The channel `c`, set aside, is filed again once its member table is
        the one `tables` holds for it. */
    lemma Closed(c: Channel, moving: set<Session>)
      requires Holds({c}, moving) && c.name in channels && channels[c.name] == c
      requires c.members == tables[c.name] && c.Valid()
      ensures Holds({}, moving)
    {
      assert Filed(c.name);
      forall n | n in channels
        ensures Filed(n)
      {
        if channels[n] == c {
          assert Named(channels, n);
        }
      }
    }

    /** `createSession(nick)`, with `id` the fresh random id: rejects a nick
        that is too long, holds a character outside the allowed ones, or is
        in use; otherwise files the new session and joins it to the default
        channel. */
    method CreateSession(nick: string, id: string, now: int) returns (r: Option<Session>)
      requires Valid() && id !in sessions
      modifies this`sessions, this`tables, this`places, Default()`members, Default()`nMembers, Default()`log
      modifies Default().Sessions()`callback, Default().Sessions()`answers
      ensures Valid() && channels == old(channels)
      ensures r.None? <==> |nick| > MAX_NICK_LENGTH || !NickChars(nick) || old(NickInUse(nick))
      ensures r.None? ==> sessions == old(sessions) && unchanged(Default())
      ensures r.None? ==> forall m :: m in Default().members ==> Untouched(Default().members[m].session)
      ensures r.Some? ==>
        var s := r.value;
        var c := Default();
        && fresh(s) && s.id == id && s.nick == nick && s.channel == c
        && sessions == old(sessions)[id := s]
        && c.members == old(c.members)[id := Member(now, s)]
        && c.Announced(nick, Kind.Join, nick + " joined", now)
    {
      if |nick| > MAX_NICK_LENGTH {
        return None;
      }
      if exists i :: 0 <= i < |nick| && !IsNickChar(nick[i]) {
        return None;
      }
      var taken := FindNick(nick);
      if taken {
        return None;
      }
      var s := AddSession(nick, id, channels[DEFAULT_CHANNEL], now);
      r := Some(s);
    }

    /** The accepting half of `createSession`: a new session in the default
        channel, announced to that channel's members. */
    method AddSession(nick: string, id: string, c: Channel, now: int) returns (s: Session)
      requires Valid() && id !in sessions && !NickInUse(nick) && c == Default()
      modifies this`sessions, this`tables, this`places, c`members, c`nMembers, c`log
      modifies c.Sessions()`callback, c.Sessions()`answers
      ensures Valid() && channels == old(channels)
      ensures fresh(s) && s.id == id && s.nick == nick && s.channel == c
      ensures sessions == old(sessions)[id := s]
      ensures c.members == old(c.members)[id := Member(now, s)]
      ensures c.Announced(nick, Kind.Join, nick + " joined", now)
    {
      assert Filed(DEFAULT_CHANNEL) && Named(channels, DEFAULT_CHANNEL);
      ChannelMembers(DEFAULT_CHANNEL);
      s := Register(nick, id, c, now);
      Welcome(s, c, now);
    }

    /** The new session joins the default channel, which becomes consistent
        with the server's tables again. */
    method Welcome(s: Session, c: Channel, now: int)
      requires Holds({c}, {}) && c.name in channels && channels[c.name] == c && c.Valid()
      requires s.id !in c.members && tables[c.name] == c.members[s.id := Member(now, s)]
      modifies c`members, c`nMembers, c`log, c.Sessions()`callback, c.Sessions()`answers, s`callback, s`answers
      ensures Valid()
      ensures c.members == old(c.members)[s.id := Member(now, s)]
      ensures c.Announced(s.nick, Kind.Join, s.nick + " joined", now)
    {
      JoinChannel(s, c, s.nick + " joined", now, {c}, {});
      Closed(c, {});
    }

    /** The channel filed under `name`, when there is one. */
    function FiledUnder(name: string): set<Channel>
      reads this
    {
      if name in channels then {channels[name]} else {}
    }

    /** The member sessions of the channel filed under `name`, when there is
        one. */
    function SessionsUnder(name: string): set<Session>
      reads this, FiledUnder(name)
    {
      if name in channels then channels[name].Sessions() else {}
    }

    /** `session.switchTo(name)`: a session moves to the channel called
        `name` unless it is there already; the channel is created when no
        channel has that name. The old channel announces "left <old>" to the
        members that remain, the new one "enters <new>" to all its members,
        the session included. Only the two channels and their members'
        callbacks change. Names are looked up as the table's own keys, so a
        name such as "toString" gets a channel of its own; see
        `SwitchToAsWritten` for the lookup as the program does it. */
    method SwitchTo(s: Session, name: string, now: int)
      requires Valid() && s.id in sessions && sessions[s.id] == s
      modifies this`channels, this`tables, this`places, s`channel, s`callback, s`answers
      modifies s.channel`members, s.channel`nMembers, s.channel`log, s.channel.Sessions()`callback, s.channel.Sessions()`answers
      modifies FiledUnder(name)`members, FiledUnder(name)`nMembers, FiledUnder(name)`log
      modifies SessionsUnder(name)`callback, SessionsUnder(name)`answers
      ensures Valid() && sessions == old(sessions)
      ensures old(s.channel.name) == name ==> unchanged(this, s) && unchanged(channels.Values) && unchanged(sessions.Values)
      ensures old(s.channel.name) != name ==>
        && name in channels && s.channel == channels[name]
        && old(s.channel).members == old(s.channel.members) - {s.id}
        && old(s.channel).Announced(s.nick, Part, "left " + old(s.channel.name), now)
      ensures old(s.channel.name) != name && name in old(channels) ==>
        && channels == old(channels)
        && s.channel.members == old(channels[name].members)[s.id := Member(now, s)]
        && s.channel.Announced(s.nick, Kind.Join, "enters " + name, now)
      ensures old(s.channel.name) != name && name !in old(channels) ==>
        && fresh(s.channel) && channels == old(channels)[name := s.channel]
        && s.channel.members == map[s.id := Member(now, s)]
        && s.channel.log == [Message(Some(0), s.nick, Kind.Join, "enters " + name, now)]
        && Delivered(s, s.channel.log)
    {
      if s.channel.name != name {
        if name in channels {
          SwitchToExisting(s, name, now);
        } else {
          SwitchToNew(s, name, now);
        }
      }
    }

    /** `switchTo` as written, where `channels[name]` also finds the
        properties of `Object.prototype`: for such a name no channel is
        created, the value found is not a channel and calling its `join`
        throws a TypeError, after the session has left its channel. The
        session is then a member of no channel, while the tables still seat
        it in its old one. The model keeps `s.channel` at the old channel,
        where the program stores the value found. */
    method SwitchToAsWritten(s: Session, name: string, now: int) returns (threw: bool)
      requires Valid() && s.id in sessions && sessions[s.id] == s
      modifies this`channels, this`tables, this`places, s`channel, s`callback, s`answers
      modifies s.channel`members, s.channel`nMembers, s.channel`log, s.channel.Sessions()`callback, s.channel.Sessions()`answers
      modifies FiledUnder(name)`members, FiledUnder(name)`nMembers, FiledUnder(name)`log
      modifies SessionsUnder(name)`callback, SessionsUnder(name)`answers
      ensures threw <==> old(s.channel.name) != name && name !in old(channels) && name in INHERITED
      ensures !threw ==> Valid() && sessions == old(sessions)
      ensures old(s.channel.name) == name ==> unchanged(this, s) && unchanged(channels.Values) && unchanged(sessions.Values)
      ensures old(s.channel.name) != name ==>
        && old(s.channel).members == old(s.channel.members) - {s.id}
        && old(s.channel).Announced(s.nick, Part, "left " + old(s.channel.name), now)
      ensures !threw && old(s.channel.name) != name ==> name in channels && s.channel == channels[name]
      ensures old(s.channel.name) != name && name in old(channels) ==>
        && channels == old(channels)
        && s.channel.members == old(channels[name].members)[s.id := Member(now, s)]
        && s.channel.Announced(s.nick, Kind.Join, "enters " + name, now)
      ensures !threw && old(s.channel.name) != name && name !in old(channels) ==>
        && fresh(s.channel) && channels == old(channels)[name := s.channel]
        && s.channel.members == map[s.id := Member(now, s)]
        && s.channel.log == [Message(Some(0), s.nick, Kind.Join, "enters " + name, now)]
        && Delivered(s, s.channel.log)
      ensures threw ==>
        && channels == old(channels) && sessions == old(sessions) && Untouched(s)
        && forall n :: n in channels ==> s.id !in channels[n].members
    {
      threw := s.channel.name != name && name !in channels && name in INHERITED;
      if threw {
        Strand(s, now);
      } else {
        SwitchTo(s, name, now);
      }
    }

    /** The part of `switchTo` that runs before the TypeError: the session
        leaves its channel with "left <name>" and is then a member of no
        channel. */
    method Strand(s: Session, now: int)
      requires Valid() && s.id in sessions && sessions[s.id] == s
      modifies s.channel`members, s.channel`nMembers, s.channel`log, s.channel.Sessions()`callback, s.channel.Sessions()`answers
      ensures old(s.channel).members == old(s.channel.members) - {s.id}
      ensures old(s.channel).Announced(s.nick, Part, "left " + old(s.channel.name), now)
      ensures forall n :: n in channels ==> s.id !in channels[n].members
      ensures Untouched(s)
    {
      SessionSeated(s.id);
      Homed(s);
      var c0 := s.channel;
      Opened({c0}, {});
      LeaveChannel(s, c0, "left " + c0.name, now, {});
    }

    /** A session is a member of its own channel only. */
    lemma Homed(s: Session)
      requires Valid() && s.id in sessions && sessions[s.id] == s
      ensures forall n :: n in channels && channels[n] != s.channel ==> s.id !in channels[n].members
    {
      SessionSeated(s.id);
      forall n | n in channels && channels[n] != s.channel
        ensures s.id !in channels[n].members
      {
        assert Filed(n);
        MemberOfOneChannel(channels, tables, sessions, places, s.id, n);
      }
    }

    /** `switchTo` when a channel is filed under `name`. */
    method SwitchToExisting(s: Session, name: string, now: int)
      requires Valid() && s.id in sessions && sessions[s.id] == s && s.channel.name != name && name in channels
      modifies this`tables, this`places, s`channel, s`callback, s`answers
      modifies s.channel`members, s.channel`nMembers, s.channel`log, s.channel.Sessions()`callback, s.channel.Sessions()`answers
      modifies FiledUnder(name)`members, FiledUnder(name)`nMembers, FiledUnder(name)`log
      modifies SessionsUnder(name)`callback, SessionsUnder(name)`answers
      ensures Valid() && sessions == old(sessions) && channels == old(channels) && s.channel == channels[name]
      ensures old(s.channel).members == old(s.channel.members) - {s.id}
      ensures old(s.channel).Announced(s.nick, Part, "left " + old(s.channel.name), now)
      ensures s.channel.members == old(channels[name].members)[s.id := Member(now, s)]
      ensures s.channel.Announced(s.nick, Kind.Join, "enters " + name, now)
    {
      SessionSeated(s.id);
      var c0, c := s.channel, channels[name];
      Existing(s, name);
      Opened({c0, c}, {s});
      Move(s, c, now);
      Rehouse(s, c0, c, now);
    }

    /** `switchTo` when no channel is filed under `name`: the channel is
        created after the session has left its own. */
    method SwitchToNew(s: Session, name: string, now: int)
      requires Valid() && s.id in sessions && sessions[s.id] == s && name !in channels
      modifies this`channels, this`tables, this`places, s`channel, s`callback, s`answers
      modifies s.channel`members, s.channel`nMembers, s.channel`log, s.channel.Sessions()`callback, s.channel.Sessions()`answers
      ensures Valid() && sessions == old(sessions)
      ensures old(s.channel).members == old(s.channel.members) - {s.id}
      ensures old(s.channel).Announced(s.nick, Part, "left " + old(s.channel.name), now)
      ensures fresh(s.channel) && channels == old(channels)[name := s.channel]
      ensures s.channel.members == map[s.id := Member(now, s)]
      ensures s.channel.log == [Message(Some(0), s.nick, Kind.Join, "enters " + name, now)]
      ensures Delivered(s, s.channel.log)
    {
      SessionSeated(s.id);
      var c0 := s.channel;
      Opened({c0}, {s});
      var c := MoveToNew(s, name, now);
      Found(s, c0, c, now);
    }

    /** The server's side of `switchTo` into the new channel `c`: `c` is
        filed under its name and the tables follow `s` from `c0` to `c`. */
    method Found(s: Session, c0: Channel, c: Channel, now: int)
      requires Holds({c0}, {s}) && s.id in sessions && sessions[s.id] == s && s.channel == c && places[s.id] == c0
      requires c0.name in channels && channels[c0.name] == c0 && c.name !in channels
      requires c0.Valid() && c0.members == tables[c0.name] - {s.id}
      requires c.Valid() && c.members == map[s.id := Member(now, s)]
      modifies this`channels, this`tables, this`places
      ensures Valid() && channels == old(channels)[c.name := c] && sessions == old(sessions)
    {
      Widened(c0, c, s);
      File(c, {c0, c}, {s});
      Rehouse(s, c0, c, now);
    }

    /** The channel filed under another name than that of `s`'s channel is
        consistent, holds live sessions only, none of them a member of
        `s`'s channel, and does not hold `s`. */
    lemma Existing(s: Session, name: string)
      requires Valid() && s.id in sessions && sessions[s.id] == s && name in channels && s.channel.name != name
      ensures var c0, c := s.channel, channels[name];
        && c != c0 && c.name == name && c.Valid() && c.members == tables[name]
        && s.id !in c.members && c0.Sessions() !! c.Sessions()
    {
      SessionSeated(s.id);
      assert Named(channels, name) && Filed(name);
      MemberOfOneChannel(channels, tables, sessions, places, s.id, name);
      SessionsApart(s.channel.name, name);
    }

    /** Two channels filed under different names have no member session in
        common. */
    lemma SessionsApart(n0: string, n: string)
      requires Valid() && n0 in channels && n in channels && n0 != n
      ensures channels[n0].Sessions() !! channels[n].Sessions()
    {
      ChannelMembers(n0);
      ChannelMembers(n);
      forall m | m in channels[n].Sessions()
        ensures m !in channels[n0].Sessions()
      {
        var j :| j in channels[n].members && channels[n].members[j].session == m;
        assert Filed(n) && Filed(n0) && Named(channels, n) && Named(channels, n0);
        MemberOfOneChannel(channels, tables, sessions, places, j, n);
        MemberOfOneChannel(channels, tables, sessions, places, j, n0);
      }
    }

    lemma Widened(c0: Channel, c: Channel, s: Session)
      requires Holds({c0}, {s})
      ensures Holds({c0, c}, {s})
    {
    }

    /** The server's tables follow a session that moved from `c0` to `c`. */
    ghost method Rehouse(s: Session, c0: Channel, c: Channel, now: int)
      requires Holds({c0, c}, {s}) && s.id in sessions && sessions[s.id] == s && s.channel == c && places[s.id] == c0
      requires c0.name in channels && channels[c0.name] == c0 && c.name in channels && channels[c.name] == c && c0 != c
      requires c0.Valid() && c0.members == tables[c0.name] - {s.id}
      requires c.Valid() && c.members == tables[c.name][s.id := Member(now, s)]
      modifies this`tables, this`places
      ensures Valid() && channels == old(channels) && sessions == old(sessions)
    {
      Relocate(s, c0, c, now);
      Settled(s, c0, c);
      ClosedBoth(c0, c);
    }

    ghost method Relocate(s: Session, c0: Channel, c: Channel, now: int)
      requires Holds({c0, c}, {s}) && s.id in sessions && sessions[s.id] == s && s.channel == c && places[s.id] == c0
      requires c0.name in channels && channels[c0.name] == c0 && c.name in channels && channels[c.name] == c && c0 != c
      requires c0.Valid() && c0.members == tables[c0.name] - {s.id}
      requires c.Valid() && c.members == tables[c.name][s.id := Member(now, s)]
      modifies this`tables, this`places
      ensures Holds({c0, c}, {s}) && places[s.id] == c && channels == old(channels) && sessions == old(sessions)
      ensures c0.members == tables[c0.name] && c.members == tables[c.name]
    {
      SessionMoved(channels, tables, sessions, places, s.id, c0.name, c.name, now);
      tables := tables[c0.name := tables[c0.name] - {s.id}][c.name := tables[c.name][s.id := Member(now, sessions[s.id])]];
      places := places[s.id := channels[c.name]];
      forall n | n in channels && channels[n] !in {c0, c}
        ensures Filed(n)
      {
        assert n != c0.name && n != c.name && old(Filed(n));
      }
      forall j | j in sessions && sessions[j] !in {s}
        ensures Placed(j)
      {
        assert old(Placed(j));
      }
    }

    /** A session set aside whose channel is the one the tables give it
        need not be set aside. */
    lemma Settled(s: Session, c0: Channel, c: Channel)
      requires Holds({c0, c}, {s}) && s.id in sessions && sessions[s.id] == s && s.id in places && s.channel == places[s.id]
      ensures Holds({c0, c}, {})
    {
      forall j | j in sessions
        ensures Placed(j)
      {
        if sessions[j] == s {
          assert Seated(j, channels, tables, sessions, places);
        }
      }
    }

    /** Two channels set aside that agree with the tables again. */
    lemma ClosedBoth(c0: Channel, c: Channel)
      requires Holds({c0, c}, {})
      requires c0.name in channels && channels[c0.name] == c0 && c0.members == tables[c0.name] && c0.Valid()
      requires c.name in channels && channels[c.name] == c && c.members == tables[c.name] && c.Valid()
      ensures Valid()
    {
      assert Filed(c0.name) && Filed(c.name);
      forall n | n in channels
        ensures Filed(n)
      {
        if channels[n] == c0 || channels[n] == c {
          assert Named(channels, n);
        }
      }
    }

    /** `channel.join(session, text)` seen from the server: only the channel
        `c`, set aside, its members' callbacks and the joining session's
        callback change. */
    method JoinChannel(s: Session, c: Channel, text: string, now: int, ghost open: set<Channel>, ghost moving: set<Session>)
      requires Holds(open, moving) && c in open && c.Valid()
      modifies c`members, c`nMembers, c`log, c.Sessions()`callback, c.Sessions()`answers, s`callback, s`answers
      ensures Holds(open, moving) && c.Valid()
      ensures s.id in old(c.members) ==> c.members == old(c.members) && c.log == old(c.log)
      ensures s.id in old(c.members) ==> forall id :: id in c.members ==> Untouched(c.members[id].session)
      ensures s.id !in old(c.members) ==>
        c.members == old(c.members)[s.id := Member(now, s)] && c.Announced(s.nick, Kind.Join, text, now)
      ensures forall x: Session {:trigger NoNewParking(x)} :: old(allocated(x)) ==> NoNewParking(x)
    {
      c.Join(s, text, now);
    }

    /** `delete sessions[session.id]` once the session has left its channel
        `c`. */
    method Unregister(s: Session, c: Channel)
      requires Holds({c}, {}) && s.id in sessions && sessions[s.id] == s && s.channel == c
      requires c.name in channels && channels[c.name] == c
      requires c.name in tables && c.members == tables[c.name] - {s.id} && c.Valid()
      modifies this`sessions, this`tables, this`places
      ensures Valid() && channels == old(channels) && sessions == old(sessions) - {s.id}
    {
      assert Placed(s.id) && Seated(s.id, channels, tables, sessions, places);
      SessionRemoved(channels, tables, sessions, places, s.id, c.name);
      sessions := sessions - {s.id};
      tables := tables[c.name := tables[c.name] - {s.id}];
      places := places - {s.id};
      forall n | n in channels && channels[n] !in {c}
        ensures Filed(n)
      {
        assert n != c.name && old(Filed(n));
      }
      forall j | j in sessions
        ensures Placed(j)
      {
        assert old(Placed(j));
      }
      Closed(c, {});
    }

    /** `session.destroy()`: the session leaves its channel, with "<nick>
        parted" announced to the members that remain, and is dropped from
        `sessions`. A parked callback of its own is left unanswered, and no
        session gets a callback parked. */
    method Destroy(s: Session, now: int)
      requires Valid() && s.id in sessions && sessions[s.id] == s
      modifies this`sessions, this`tables, this`places, s.channel`members, s.channel`nMembers, s.channel`log
      modifies s.channel.Sessions()`callback, s.channel.Sessions()`answers
      ensures Valid() && channels == old(channels)
      ensures sessions == old(sessions) - {s.id}
      ensures Parted(s, old(s.channel), now)
      ensures forall x: Session {:trigger NoNewParking(x)} :: old(allocated(x)) ==> NoNewParking(x)
    {
      var c := s.channel;
      LeaveForGood(s, c, now);
      label left:
      Unregister(s, c);
      // Dropping the session touches only the server's own fields.
      assert unchanged@left(s, c) && unchanged@left(c.Sessions());
    }

    /** The first step of `destroy`: the session leaves its channel `c`,
        which is set aside until the session is dropped from `sessions`. */
    method LeaveForGood(s: Session, c: Channel, now: int)
      requires Valid() && s.id in sessions && sessions[s.id] == s && c == s.channel
      modifies c`members, c`nMembers, c`log, c.Sessions()`callback, c.Sessions()`answers
      ensures Holds({c}, {}) && c.name in channels && channels[c.name] == c && c.name in tables
      ensures c.members == tables[c.name] - {s.id} && c.Valid()
      ensures Parted(s, c, now)
      ensures forall x: Session {:trigger NoNewParking(x)} :: old(allocated(x)) ==> NoNewParking(x)
    {
      SessionSeated(s.id);
      Opened({c}, {});
      LeaveChannel(s, c, s.nick + " parted", now, {});
    }

    /** `session.validate()`: an expired session is destroyed; otherwise a
        stale parked callback is answered with no messages. */
    method Validate(s: Session, now: int)
      requires Valid() && s.id in sessions && sessions[s.id] == s
      modifies this`sessions, this`tables, this`places, s.channel`members, s.channel`nMembers, s.channel`log
      modifies s.channel.Sessions()`callback, s.channel.Sessions()`answers, s`callback, s`answers
      ensures Valid() && channels == old(channels) && s.channel == old(s.channel)
      ensures old(Expired(s.timestamp, now)) ==> sessions == old(sessions) - {s.id} && Parted(s, old(s.channel), now)
      ensures !old(Expired(s.timestamp, now)) ==> sessions == old(sessions) && unchanged(s.channel)
      ensures !old(Expired(s.timestamp, now)) && old(Stale(s.callback, now)) ==>
        s.callback == None && s.answers == old(s.answers) + [Answer(old(s.callback).value.poll, [])]
      ensures !old(Expired(s.timestamp, now)) && !old(Stale(s.callback, now)) ==> Untouched(s)
      ensures !old(Expired(s.timestamp, now)) ==>
        forall x: Session :: old(allocated(x)) && x != s ==> x.callback == old(x.callback) && x.answers == old(x.answers)
      ensures forall x: Session {:trigger NoNewParking(x)} :: old(allocated(x)) ==> NoNewParking(x)
    {
      if Expired(s.timestamp, now) {
        Destroy(s, now);
      } else if Stale(s.callback, now) {
        s.Deliver([]);
      }
    }

    /** The sweep run every second: every session filed when it starts is
        validated once, in some order, all at the same `now`. The expired
        sessions are gone and no survivor keeps a stale callback. */
    method Sweep(now: int)
      requires Valid()
      modifies this`sessions, this`tables, this`places
      modifies channels.Values`members, channels.Values`nMembers, channels.Values`log
      modifies sessions.Values`callback, sessions.Values`answers
      ensures Valid() && channels == old(channels)
      ensures sessions == Kept(old(sessions), old(Stamps()), {}, now)
      ensures Calm({}, now)
      ensures forall x: Session {:trigger NoNewParking(x)} :: old(allocated(x)) ==> NoNewParking(x)
      ensures forall id :: old(Quiet(id, now)) ==> Untouched(old(sessions)[id])
      ensures forall c :: c in old(channels.Values) ==> PartedOnly(old(c.log), c.log, now)
      ensures forall c :: c in old(channels.Values) && old(Lively(c, now)) ==> c.log == old(c.log)
    {
      ghost var filed := sessions;
      ghost var stamps := Stamps();
      ghost var start := Mail(filed);
      ghost var rooms := Rooms(filed);
      ghost var quiet := set k | k in filed && Quiet(k, now);
      ghost var logs := map c | c in channels.Values :: c.log;
      ghost var still := set c | c in channels.Values && Lively(c, now);
      forall c, j | c in still && j in rooms && rooms[j] == c
        ensures j in stamps && !Expired(stamps[j], now)
      {
        assert Lively(c, now) && sessions[j].channel == c;
      }
      KeptAll(filed, stamps, now);
      VisitAll(now, filed, rooms, stamps, start, quiet, logs, still);
      forall id | old(Quiet(id, now))
        ensures Untouched(filed[id])
      {
        assert id in quiet;
      }
      Chronicles(logs, still, rooms, stamps, now);
    }

    /** The sweep proper: every session filed when it starts is visited
        once, and none of them gets a new parked callback. */
    method VisitAll(now: int, ghost filed: map<string, Session>, ghost rooms: map<string, Channel>, ghost stamps: map<string, int>,
                    ghost start: map<string, (Option<Parked>, seq<Answer>)>, ghost quiet: set<string>,
                    ghost logs: map<Channel, seq<Message>>, ghost still: set<Channel>)
      requires Swept(filed, rooms, stamps, start, quiet, sessions.Keys, now) && Chronicled(rooms, stamps, logs, still, now)
      requires filed == sessions && forall k :: k in filed ==> start[k] == (filed[k].callback, filed[k].answers)
      modifies this`sessions, this`tables, this`places
      modifies channels.Values`members, channels.Values`nMembers, channels.Values`log
      modifies filed.Values`callback, filed.Values`answers
      ensures Swept(filed, rooms, stamps, start, quiet, {}, now) && Chronicled(rooms, stamps, logs, still, now)
      ensures channels == old(channels)
      ensures forall x: Session {:trigger NoNewParking(x)} :: old(allocated(x)) ==> NoNewParking(x)
    {
      VisitEach(now, filed, rooms, stamps, start, quiet, logs, still);
      NoneParked(filed, stamps, start);
    }

    /** The loop of the sweep. */
    method VisitEach(now: int, ghost filed: map<string, Session>, ghost rooms: map<string, Channel>, ghost stamps: map<string, int>,
                     ghost start: map<string, (Option<Parked>, seq<Answer>)>, ghost quiet: set<string>,
                     ghost logs: map<Channel, seq<Message>>, ghost still: set<Channel>)
      requires Swept(filed, rooms, stamps, start, quiet, sessions.Keys, now) && Chronicled(rooms, stamps, logs, still, now)
      modifies this`sessions, this`tables, this`places
      modifies channels.Values`members, channels.Values`nMembers, channels.Values`log
      modifies filed.Values`callback, filed.Values`answers
      ensures Swept(filed, rooms, stamps, start, quiet, {}, now) && Chronicled(rooms, stamps, logs, still, now)
      ensures channels == old(channels)
    {
      var ids := sessions.Keys;
      while ids != {}
        invariant Swept(filed, rooms, stamps, start, quiet, ids, now)
        invariant Chronicled(rooms, stamps, logs, still, now)
        invariant channels == old(channels)
        decreases ids
      {
        var id :| id in ids;
        Step(id, now, filed, rooms, stamps, start, quiet, ids, logs, still);
        ids := ids - {id};
      }
    }

    /** `Sweeping`, and what the sweep so far has done to the mail of the
        sessions `filed`: each was answered at most once, and the `quiet`
        ones not at all. */
    ghost predicate Swept(filed: map<string, Session>, rooms: map<string, Channel>, stamps: map<string, int>, start: map<string, (Option<Parked>, seq<Answer>)>, quiet: set<string>, ids: set<string>, now: int)
      reads this, channels.Values`members, channels.Values`nMembers, channels.Values`log
      reads sessions.Values`channel, sessions.Values`timestamp, sessions.Values`callback
      reads filed.Values`callback, filed.Values`answers, filed.Values`timestamp, filed.Values`channel
    {
      && Sweeping(filed, stamps, ids, now) && Posted(filed, stamps, start)
      && rooms.Keys == filed.Keys && (forall k :: k in filed ==> filed[k].channel == rooms[k])
      && Hushed(rooms, stamps, start, quiet, now)
      && forall k :: k in quiet ==> filed[k].callback == start[k].0 && filed[k].answers == start[k].1
    }

    /** One step of the sweep, with what it does to the mail. */
    method Step(id: string, now: int, ghost filed: map<string, Session>, ghost rooms: map<string, Channel>, ghost stamps: map<string, int>,
                ghost start: map<string, (Option<Parked>, seq<Answer>)>, ghost quiet: set<string>, ghost ids: set<string>,
                ghost logs: map<Channel, seq<Message>>, ghost still: set<Channel>)
      requires id in ids && Swept(filed, rooms, stamps, start, quiet, ids, now)
      requires Chronicled(rooms, stamps, logs, still, now)
      modifies this`sessions, this`tables, this`places
      modifies channels.Values`members, channels.Values`nMembers, channels.Values`log
      modifies filed.Values`callback, filed.Values`answers
      ensures Swept(filed, rooms, stamps, start, quiet, ids - {id}, now) && channels == old(channels)
      ensures Chronicled(rooms, stamps, logs, still, now)
    {
      ghost var s := filed[id];
      Visit(id, now, filed, stamps, ids);
      StillPosted(filed, stamps, start);
      forall k | k in quiet
        ensures filed[k].callback == start[k].0 && filed[k].answers == start[k].1
      {
        var x := filed[k];
        assert Untouched(x) by {
          if x.channel == s.channel {
            assert !Expired(stamps[id], now);
          }
        }
      }
      forall c | c in logs
        ensures PartedOnly(logs[c], c.log, now) && (c in still ==> c.log == logs[c])
      {
        if c == s.channel && Expired(stamps[id], now) {
          PartedOnlyGrows(logs[c], old(c.log), s.nick, Some(|old(c.log)|), now);
        }
      }
    }

    /** What the sweep so far has done to the channel logs, which were
        `logs` when it began: each gained only "parted" messages, and the
        channels in `still`, none of whose sessions was idle too long, none. */
    ghost predicate Chronicled(rooms: map<string, Channel>, stamps: map<string, int>, logs: map<Channel, seq<Message>>, still: set<Channel>, now: int)
      reads logs.Keys`log
    {
      && (forall c :: c in logs ==> PartedOnly(logs[c], c.log, now))
      && (forall c :: c in still ==> c in logs && c.log == logs[c])
      && forall c, j :: c in still && j in rooms && rooms[j] == c ==> j in stamps && !Expired(stamps[j], now)
    }

    /** `Posted` at the end of the sweep, for the sessions, stamps and mail
        taken at its start: no session filed then got a new parked
        callback. */
    twostate lemma NoneParked(new filed: map<string, Session>, new stamps: map<string, int>, new start: map<string, (Option<Parked>, seq<Answer>)>)
      requires Posted(filed, stamps, start) && filed == old(sessions)
      requires forall k :: k in filed ==> stamps[k] == old(sessions[k].timestamp) && start[k] == old((sessions[k].callback, sessions[k].answers))
      ensures forall x: Session {:trigger NoNewParking(x)} :: x in filed.Values ==> NoNewParking(x)
    {
      forall x: Session | x in filed.Values
        ensures NoNewParking(x)
      {
        var k :| k in filed && filed[k] == x;
      }
    }

    /** `Chronicled` at the end of the sweep, for the logs and lively
        channels taken at its start: every log gained only "parted"
        messages, and a lively channel's log none. */
    twostate lemma Chronicles(new logs: map<Channel, seq<Message>>, new still: set<Channel>, new rooms: map<string, Channel>, new stamps: map<string, int>, now: int)
      requires forall c :: c in old(channels.Values) ==> c in logs && logs[c] == old(c.log)
      requires forall c :: c in old(channels.Values) && old(Lively(c, now)) ==> c in still
      requires Chronicled(rooms, stamps, logs, still, now)
      ensures forall c :: c in old(channels.Values) ==> PartedOnly(old(c.log), c.log, now)
      ensures forall c :: c in old(channels.Values) && old(Lively(c, now)) ==> c.log == old(c.log)
    {
    }

    /** Each session of `filed` keeps its timestamp from `stamps` and has
        been answered at most once since its mail was `start`. */
    ghost predicate Posted(filed: map<string, Session>, stamps: map<string, int>, start: map<string, (Option<Parked>, seq<Answer>)>)
      reads filed.Values`callback, filed.Values`answers, filed.Values`timestamp
    {
      && start.Keys == filed.Keys && stamps.Keys == filed.Keys
      && forall k :: k in filed ==>
        && filed[k].timestamp == stamps[k]
        && AtMostOnce(start[k].0, start[k].1, filed[k].callback, filed[k].answers)
    }

    /** The sessions `quiet` of `filed` had, in `start`, no stale callback,
        and no session of their channel has an expired stamp. */
    ghost predicate Hushed(rooms: map<string, Channel>, stamps: map<string, int>, start: map<string, (Option<Parked>, seq<Answer>)>, quiet: set<string>, now: int)
    {
      && quiet <= rooms.Keys && quiet <= start.Keys
      && forall k :: k in quiet ==>
        && !Stale(start[k].0, now)
        && forall j :: j in rooms && rooms[j] == rooms[k] ==> j in stamps && !Expired(stamps[j], now)
    }

    /** The channel of each session of `filed`. */
    ghost function Rooms(filed: map<string, Session>): (r: map<string, Channel>)
      reads filed.Values`channel
      ensures r.Keys == filed.Keys && forall k :: k in filed ==> r[k] == filed[k].channel
    {
      map k | k in filed :: filed[k].channel
    }

    /** A step that parks no callback keeps `Posted`. */
    twostate lemma StillPosted(filed: map<string, Session>, new stamps: map<string, int>, new start: map<string, (Option<Parked>, seq<Answer>)>)
      requires start.Keys == filed.Keys && stamps.Keys == filed.Keys
      requires forall k :: k in filed ==>
        && old(filed[k].timestamp) == stamps[k]
        && AtMostOnce(start[k].0, start[k].1, old(filed[k].callback), old(filed[k].answers))
      requires forall x: Session {:trigger NoNewParking(x)} :: old(allocated(x)) ==> NoNewParking(x)
      ensures Posted(filed, stamps, start)
    {
      forall k | k in filed
        ensures filed[k].timestamp == stamps[k]
        ensures AtMostOnce(start[k].0, start[k].1, filed[k].callback, filed[k].answers)
      {
        assert NoNewParking(filed[k]);
        AtMostOnceTwice(start[k].0, start[k].1, old(filed[k].callback), old(filed[k].answers), filed[k].callback, filed[k].answers);
      }
    }

    /** Session `id` has no stale callback, and no session of its channel,
        itself included, is idle too long: the sweep leaves it alone. */
    ghost predicate Quiet(id: string, now: int)
      reads this, sessions.Values`callback, sessions.Values`channel, sessions.Values`timestamp
    {
      id in sessions && !Stale(sessions[id].callback, now) && Lively(sessions[id].channel, now)
    }

    /** No session of channel `c` is idle too long. */
    ghost predicate Lively(c: Channel, now: int)
      reads this, sessions.Values`channel, sessions.Values`timestamp
    {
      forall j :: j in sessions && sessions[j].channel == c ==> !Expired(sessions[j].timestamp, now)
    }

    /** The parked callback and the answers of each session of `filed`. */
    ghost function Mail(filed: map<string, Session>): (r: map<string, (Option<Parked>, seq<Answer>)>)
      reads filed.Values`callback, filed.Values`answers
      ensures r.Keys == filed.Keys && forall k :: k in filed ==> r[k] == (filed[k].callback, filed[k].answers)
    {
      map k | k in filed :: (filed[k].callback, filed[k].answers)
    }

    /** The timestamps of the filed sessions, by id. */
    ghost function Stamps(): (r: map<string, int>)
      reads this, sessions.Values`timestamp
      ensures r.Keys == sessions.Keys && forall id :: id in sessions ==> r[id] == sessions[id].timestamp
    {
      map id | id in sessions :: sessions[id].timestamp
    }

    /** Every session's timestamp is the one recorded in `stamps`. */
    ghost predicate Stamped(stamps: map<string, int>)
      reads this, sessions.Values`timestamp
    {
      forall id :: id in sessions ==> id in stamps && sessions[id].timestamp == stamps[id]
    }

    /** No session the sweep has visited (none outside `ids`) keeps a stale
        callback. */
    ghost predicate Calm(ids: set<string>, now: int)
      reads this, sessions.Values`callback
    {
      forall id :: id in sessions && id !in ids ==> !Stale(sessions[id].callback, now)
    }

    /** The state of a sweep that started from the sessions `filed`, with
        timestamps `stamps`, and has still to visit `ids`. */
    ghost predicate Sweeping(filed: map<string, Session>, stamps: map<string, int>, ids: set<string>, now: int)
      reads this, channels.Values`members, channels.Values`nMembers, channels.Values`log
      reads sessions.Values`channel, sessions.Values`timestamp, sessions.Values`callback
    {
      && Valid() && ids <= sessions.Keys && filed.Keys == stamps.Keys
      && sessions == Kept(filed, stamps, ids, now) && Stamped(stamps) && Calm(ids, now)
    }

    /** One step of the sweep: the session `id` is validated. */
    method Visit(id: string, now: int, ghost filed: map<string, Session>, ghost stamps: map<string, int>, ghost ids: set<string>)
      requires id in ids && Sweeping(filed, stamps, ids, now)
      modifies this`sessions, this`tables, this`places
      modifies channels.Values`members, channels.Values`nMembers, channels.Values`log
      modifies filed.Values`callback, filed.Values`answers
      ensures Sweeping(filed, stamps, ids - {id}, now) && channels == old(channels)
      ensures forall x: Session {:trigger NoNewParking(x)} :: old(allocated(x)) ==> NoNewParking(x)
      ensures var s := filed[id];
        !Expired(stamps[id], now) ==> forall x: Session {:trigger Untouched(x)} :: old(allocated(x)) && x != s ==> Untouched(x)
      ensures var s := filed[id]; !Expired(stamps[id], now) && !old(Stale(s.callback, now)) ==> Untouched(s)
      ensures var s := filed[id];
        forall x: Session {:trigger Untouched(x)} :: old(allocated(x)) && x != s && x !in old(s.channel.Sessions()) ==> Untouched(x)
      ensures var s := filed[id]; forall m :: m in old(s.channel.Sessions()) ==> m.channel == s.channel
      ensures forall x: Session {:trigger x.channel} :: old(allocated(x)) ==> x.channel == old(x.channel)
      ensures var s := filed[id]; Expired(stamps[id], now) ==>
        s.channel.log == old(s.channel.log) + [Message(Some(|old(s.channel.log)|), s.nick, Part, s.nick + " parted", now)]
      ensures var s := filed[id]; !Expired(stamps[id], now) ==> s.channel.log == old(s.channel.log)
      ensures var s := filed[id]; forall c: Channel {:trigger c.log} :: old(allocated(c)) && c != s.channel ==> c.log == old(c.log)
    {
      var s := sessions[id];
      SessionSeated(id);
      ChannelMembers(s.channel.name);
      MembersPointHere(s.channel.name);
      KeptStep(filed, stamps, ids, id, now);
      KeptWithin(filed, stamps, ids, now);
      ValidateQuietly(s, now, ids, stamps);
    }

    /** `Validate` as the sweep calls it: since it parks no callback, the
        sessions visited before stay calm, and `s`, if kept, is calm too. */
    method ValidateCalmly(s: Session, now: int, ghost ids: set<string>)
      requires Valid() && s.id in sessions && sessions[s.id] == s && Calm(ids, now)
      modifies this`sessions, this`tables, this`places, s.channel`members, s.channel`nMembers, s.channel`log
      modifies s.channel.Sessions()`callback, s.channel.Sessions()`answers, s`callback, s`answers
      ensures Valid() && channels == old(channels)
      ensures old(Expired(s.timestamp, now)) ==> sessions == old(sessions) - {s.id}
      ensures !old(Expired(s.timestamp, now)) ==> sessions == old(sessions)
      ensures Calm(ids, now) && (s.id in sessions ==> !Stale(s.callback, now))
      ensures old(Expired(s.timestamp, now)) || !old(Stale(s.callback, now)) ==> Untouched(s)
      ensures !old(Expired(s.timestamp, now)) ==> forall x: Session {:trigger Untouched(x)} :: old(allocated(x)) && x != s ==> Untouched(x)
      ensures forall x: Session {:trigger NoNewParking(x)} :: old(allocated(x)) ==> NoNewParking(x)
      ensures s.channel == old(s.channel)
      ensures old(Expired(s.timestamp, now)) ==>
        s.channel.log == old(s.channel.log) + [Message(Some(|old(s.channel.log)|), s.nick, Part, s.nick + " parted", now)]
      ensures !old(Expired(s.timestamp, now)) ==> s.channel.log == old(s.channel.log)
      ensures forall c: Channel {:trigger c.log} :: old(allocated(c)) && c != s.channel ==> c.log == old(c.log)
    {
      Validate(s, now);
      forall j | j in sessions && j !in ids
        ensures !Stale(sessions[j].callback, now)
      {
        assert NoNewParking(sessions[j]);
      }
    }

    /** Validating changes no timestamp either, so the timestamps recorded
        at the start of the sweep stay right. */
    method ValidateQuietly(s: Session, now: int, ghost ids: set<string>, ghost stamps: map<string, int>)
      requires Valid() && s.id in sessions && sessions[s.id] == s
      requires Calm(ids, now) && Stamped(stamps)
      modifies this`sessions, this`tables, this`places, s.channel`members, s.channel`nMembers, s.channel`log
      modifies s.channel.Sessions()`callback, s.channel.Sessions()`answers, s`callback, s`answers
      ensures Valid() && channels == old(channels)
      ensures old(Expired(s.timestamp, now)) ==> sessions == old(sessions) - {s.id}
      ensures !old(Expired(s.timestamp, now)) ==> sessions == old(sessions)
      ensures Calm(ids - {s.id}, now) && Stamped(stamps)
      ensures old(Expired(s.timestamp, now)) || !old(Stale(s.callback, now)) ==> Untouched(s)
      ensures !old(Expired(s.timestamp, now)) ==> forall x: Session {:trigger Untouched(x)} :: old(allocated(x)) && x != s ==> Untouched(x)
      ensures forall x: Session {:trigger Untouched(x)} :: old(allocated(x)) && x != s && x !in old(s.channel.Sessions()) ==> Untouched(x)
      ensures forall x: Session {:trigger NoNewParking(x)} :: old(allocated(x)) ==> NoNewParking(x)
      ensures forall x: Session {:trigger x.channel} :: old(allocated(x)) ==> x.channel == old(x.channel)
      ensures old(Expired(s.timestamp, now)) ==>
        s.channel.log == old(s.channel.log) + [Message(Some(|old(s.channel.log)|), s.nick, Part, s.nick + " parted", now)]
      ensures !old(Expired(s.timestamp, now)) ==> s.channel.log == old(s.channel.log)
      ensures forall c: Channel {:trigger c.log} :: old(allocated(c)) && c != s.channel ==> c.log == old(c.log)
    {
      ValidateCalmly(s, now, ids);
      forall j | j in sessions
        ensures j in stamps && sessions[j].timestamp == stamps[j]
      {
        assert NoNewParking(sessions[j]);
      }
      assert s.id in sessions ==> sessions[s.id] == s;
    }

    /** `channel.leave(session, text)` seen from the server: only the channel
        `c`, set aside, and its members' callbacks change. */
    method LeaveChannel(s: Session, c: Channel, text: string, now: int, ghost moving: set<Session>)
      requires Holds({c}, moving) && c.Valid()
      modifies c`members, c`nMembers, c`log, c.Sessions()`callback, c.Sessions()`answers
      ensures Holds({c}, moving) && c.Valid()
      ensures s.id !in old(c.members) ==> c.members == old(c.members) && c.log == old(c.log)
      ensures s.id !in old(c.members) ==> forall id :: id in c.members ==> Untouched(c.members[id].session)
      ensures s.id in old(c.members) ==>
        && c.members == old(c.members) - {s.id}
        && c.Announced(s.nick, Part, text, now)
        && Untouched(old(c.members)[s.id].session)
      ensures forall x: Session {:trigger NoNewParking(x)} :: old(allocated(x)) ==> NoNewParking(x)
    {
      c.Leave(s, text, now);
    }
  }
}
