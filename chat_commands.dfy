/** The `/who` command of the chat server's command table: the session is
    told, as a system message, who else is in its channel. */
module ChatCommands {
  import opened JsText
  import opened Chat

  const ALONE: string := "You are all alone. Try /channels to find channels with someone to talk to."

  /** `nicks` with every occurrence of `own` dropped, the rest in order. */
  function Without(nicks: seq<string>, own: string): seq<string>
  {
    if nicks == [] then []
    else Without(nicks[..|nicks| - 1], own) + (if nicks[|nicks| - 1] != own then [nicks[|nicks| - 1]] else [])
  }

  /** Dropping `own` keeps every other nick as often as it occurs and no
      `own` at all. */
  lemma {:induction false} WithoutCounts(nicks: seq<string>, own: string)
    ensures multiset(Without(nicks, own)) == multiset(nicks)[own := 0]
    decreases |nicks|
  {
    if nicks != [] {
      var init, last := nicks[..|nicks| - 1], nicks[|nicks| - 1];
      WithoutCounts(init, own);
      assert nicks == init + [last];
    }
  }

  /** The loop of `who` that copies every nick but the session's own. */
  method OtherNicks(all: seq<string>, own: string) returns (nicks: seq<string>)
    ensures nicks == Without(all, own)
  {
    nicks := [];
    var i := 0;
    while i < |all|
      invariant 0 <= i <= |all|
      invariant nicks == Without(all[..i], own)
    {
      assert all[..i + 1][..i] == all[..i];
      if all[i] != own {
        nicks := nicks + [all[i]];
      }
      i := i + 1;
    }
    assert all[..i] == all;
  }

  /** The reply of `who` to a session that shares its channel with `nicks`. */
  function WhoText(nicks: seq<string>): string
  {
    if |nicks| > 0 then JoinWith(nicks, ", ") + (if |nicks| == 1 then " is" else " are") + " here with you."
    else ALONE
  }

  /** The session is told it is alone exactly when nobody else is listed:
      every other reply ends in "you." and the alone one in "to.". */
  lemma AloneExactly(nicks: seq<string>)
    ensures WhoText(nicks) == ALONE <==> nicks == []
  {
    if nicks != [] {
      var verb := if |nicks| == 1 then " is" else " are";
      var head := JoinWith(nicks, ", ") + verb;
      var r := head + " here with you.";
      assert r[|r| - 3..] == " here with you."[12..];
      assert ALONE[|ALONE| - 3..] == "to.";
    }
  }

  /** `commands.who(session)`: the session is told the nicks of the other
      members of its channel, in the order `getMembers` lists them. */
  method Who(s: Session, now: int)
    modifies s`callback, s`answers, s`systemMessages
    ensures exists order: seq<string>, all: seq<string> {:trigger s.channel.Listing(order, all)} ::
      s.channel.Listing(order, all) && Told(s, WhoText(Without(all, s.nick)), now)
  {
    var all: seq<string>;
    ghost var order: seq<string>;
    all, order := s.channel.GetMembers();
    var nicks := OtherNicks(all, s.nick);
    var text := WhoText(nicks);
    s.SendSystemMessage(text, now);
    assert s.channel.Listing(order, all);
    assert Told(s, WhoText(Without(all, s.nick)), now);
  }
}
