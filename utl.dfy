/**
 * Utl: colour-code substitution, argument joining and the two chat prefixes
 * used for replies to command senders.
 */
module Utl {
  import opened Wrappers
  import opened Strings

  /** The section sign that introduces a Minecraft formatting code. */
  const Section: char := '\U{A7}'
  /** The full-width (ideographic) space. */
  const WideSpace: char := '\U{3000}'

  /** The character class [0-9A-Fa-flLmMnNoOkKrR]. */
  predicate IsColorCode(c: char)
  {
    || '0' <= c <= '9' || 'A' <= c <= 'F' || 'a' <= c <= 'f'
    || c in {'l', 'L', 'm', 'M', 'n', 'N', 'o', 'O', 'k', 'K', 'r', 'R'}
  }

  /** An ampersand at i followed by a code: a match of the colour pattern. */
  predicate ColorPairAt(s: string, i: int)
  {
    0 <= i && i + 1 < |s| && s[i] == '&' && IsColorCode(s[i + 1])
  }

  predicate NoColorPair(s: string)
  {
    forall i :: 0 <= i < |s| ==> !ColorPairAt(s, i)
  }

  /** replaceAll("&([0-9A-Fa-flLmMnNoOkKrR])", "§$1"), scanning left to right. */
  function ColorPass(s: string): string
    decreases |s|
  {
    if |s| >= 2 && s[0] == '&' && IsColorCode(s[1]) then [Section, s[1]] + ColorPass(s[2..])
    else if s == [] then []
    else [s[0]] + ColorPass(s[1..])
  }

  /** replaceAll("　", "  "). */
  function SpacePass(s: string): string
    decreases |s|
  {
    if s == [] then []
    else (if s[0] == WideSpace then "  " else [s[0]]) + SpacePass(s[1..])
  }

  /** repColor(msg). */
  function RepColor(msg: string): string
  {
    SpacePass(ColorPass(msg))
  }

  /** The colour pass keeps the length and changes exactly the ampersand of
      every match into a section sign. */
  lemma {:induction false} ColorPassPointwise(s: string)
    ensures |ColorPass(s)| == |s|
    ensures forall i :: 0 <= i < |s| ==>
              ColorPass(s)[i] == if ColorPairAt(s, i) then Section else s[i]
    decreases |s|
  {
    if |s| >= 2 && s[0] == '&' && IsColorCode(s[1]) {
      ColorPassPointwise(s[2..]);
      forall i | 2 <= i < |s|
        ensures ColorPairAt(s, i) == ColorPairAt(s[2..], i - 2)
      {
      }
    } else if s != [] {
      ColorPassPointwise(s[1..]);
      forall i | 1 <= i < |s|
        ensures ColorPairAt(s, i) == ColorPairAt(s[1..], i - 1)
      {
      }
    }
  }

  /** No match of the colour pattern survives the colour pass. */
  lemma ColorPassLeavesNoPair(s: string)
    ensures NoColorPair(ColorPass(s))
  {
    ColorPassPointwise(s);
  }

  /** Text without a match is left alone by the colour pass. */
  lemma ColorPassIdentity(s: string)
    requires NoColorPair(s)
    ensures ColorPass(s) == s
  {
    ColorPassPointwise(s);
  }

  function WideSpaces(s: string): nat
    decreases |s|
  {
    if s == [] then 0 else (if s[0] == WideSpace then 1 else 0) + WideSpaces(s[1..])
  }

  /** Every full-width space becomes two spaces and nothing else changes
      length; none is left. */
  lemma {:induction false} SpacePassShape(s: string)
    ensures |SpacePass(s)| == |s| + WideSpaces(s)
    ensures WideSpace !in SpacePass(s)
    ensures s != [] ==> SpacePass(s)[0] == (if s[0] == WideSpace then ' ' else s[0])
    decreases |s|
  {
    if s != [] {
      SpacePassShape(s[1..]);
    }
  }

  lemma {:induction false} SpacePassIdentity(s: string)
    requires WideSpace !in s
    ensures SpacePass(s) == s
    decreases |s|
  {
    if s != [] {
      SpacePassIdentity(s[1..]);
      assert [s[0]] + s[1..] == s;
    }
  }

  /** The space pass creates no match of the colour pattern. */
  lemma {:induction false} SpacePassKeepsNoPair(s: string)
    requires NoColorPair(s)
    ensures NoColorPair(SpacePass(s))
    decreases |s|
  {
    if s != [] {
      assert NoColorPair(s[1..]) by {
        forall i | 0 <= i < |s[1..]|
          ensures !ColorPairAt(s[1..], i)
        {
          assert !ColorPairAt(s, i + 1);
        }
      }
      SpacePassKeepsNoPair(s[1..]);
      SpacePassShape(s[1..]);
      var head: string := if s[0] == WideSpace then "  " else [s[0]];
      var rest := SpacePass(s[1..]);
      var r := head + rest;
      forall i | 0 <= i < |r|
        ensures !ColorPairAt(r, i)
      {
        if i >= |head| {
          assert r[i] == rest[i - |head|];
          assert !ColorPairAt(rest, i - |head|);
        } else if i == |head| - 1 && i + 1 < |r| {
          assert r[i + 1] == rest[0];
          assert !ColorPairAt(s, 0);
        }
      }
    }
  }

  /** repColor is idempotent: its output contains neither a colour match nor
      a full-width space, so a second application changes nothing. */
  lemma RepColorIdempotent(msg: string)
    ensures NoColorPair(RepColor(msg)) && WideSpace !in RepColor(msg)
    ensures RepColor(RepColor(msg)) == RepColor(msg)
  {
    var t := RepColor(msg);
    ColorPassLeavesNoPair(msg);
    SpacePassKeepsNoPair(ColorPass(msg));
    SpacePassShape(ColorPass(msg));
    ColorPassIdentity(t);
    SpacePassIdentity(t);
  }

  /** repColor changes nothing in text with no match and no full-width space,
      and only lengthens text by one per full-width space. */
  lemma RepColorLength(msg: string)
    ensures |RepColor(msg)| == |msg| + WideSpaces(msg)
  {
    ColorPassPointwise(msg);
    SpacePassShape(ColorPass(msg));
    ColorPassKeepsWideSpaces(msg);
  }

  /** The colour pass neither adds nor removes a full-width space. */
  lemma {:induction false} ColorPassKeepsWideSpaces(s: string)
    ensures WideSpaces(ColorPass(s)) == WideSpaces(s)
    decreases |s|
  {
    if |s| >= 2 && s[0] == '&' && IsColorCode(s[1]) {
      ColorPassKeepsWideSpaces(s[2..]);
      var t := [Section, s[1]] + ColorPass(s[2..]);
      assert t[1..] == [s[1]] + ColorPass(s[2..]);
      assert t[1..][1..] == ColorPass(s[2..]);
      assert s[1..][1..] == s[2..];
    } else if s != [] {
      ColorPassKeepsWideSpaces(s[1..]);
      assert ([s[0]] + ColorPass(s[1..]))[1..] == ColorPass(s[1..]);
    }
  }

  lemma RepColorIdentity(msg: string)
    requires NoColorPair(msg) && WideSpace !in msg
    ensures RepColor(msg) == msg
  {
    ColorPassIdentity(msg);
    SpacePassIdentity(msg);
  }

  /** The arguments separated by single spaces. */
  function Join(args: seq<string>): string
    decreases |args|
  {
    if args == [] then ""
    else if |args| == 1 then args[0]
    else args[0] + " " + Join(args[1..])
  }

  lemma {:induction false} JoinSnoc(args: seq<string>, a: string)
    ensures Join(args + [a]) == if args == [] then a else Join(args) + " " + a
    decreases |args|
  {
    if |args| == 1 {
      assert (args + [a])[1..] == [a];
    } else if |args| > 1 {
      assert (args + [a])[1..] == args[1..] + [a];
      JoinSnoc(args[1..], a);
    }
  }

  /** mergeStrings(args). */
  method MergeStrings(args: seq<string>) returns (r: string)
    ensures r == Join(args)
  {
    r := "";
    var first := true;
    for i := 0 to |args|
      invariant r == Join(args[..i])
      invariant first == (i == 0)
    {
      ghost var before := args[..i];
      assert args[..i + 1] == before + [args[i]];
      JoinSnoc(before, args[i]);
      if first {
        first := false;
      } else {
        r := r + " ";
      }
      r := r + args[i];
    }
    assert args[..|args|] == args;
  }

  /** Joining words that contain no space and splitting at spaces gives the
      words back (the split keeping empty pieces). */
  lemma {:induction false} SplitJoin(args: seq<string>)
    requires args != []
    requires forall k :: 0 <= k < |args| ==> NoneIn(args[k], {' '})
    ensures Split(Join(args), {' '}) == args
    decreases |args|
  {
    if |args| == 1 {
      SplitNoSeparator(args[0], {' '});
    } else {
      SplitJoin(args[1..]);
      assert args[0] + " " + Join(args[1..]) == args[0] + [' '] + Join(args[1..]);
      SplitAtSeparator(args[0], ' ', Join(args[1..]), {' '});
    }
  }

  function TotalLength(args: seq<string>): nat
    decreases |args|
  {
    if args == [] then 0 else |args[0]| + TotalLength(args[1..])
  }

  /** The joined text holds every character of every argument plus one
      space between neighbours. */
  lemma {:induction false} JoinLength(args: seq<string>)
    requires args != []
    ensures |Join(args)| == TotalLength(args) + |args| - 1
    decreases |args|
  {
    if |args| > 1 {
      JoinLength(args[1..]);
    }
  }

  /** A command sender: a player or anything else (console, command block);
      None is a null sender. */
  datatype SenderKind = PlayerSender | OtherSender

  /** Where a reply goes: to the sender, or to every player when there is
      no sender. */
  datatype Outgoing = ToSender(text: string) | Broadcast(text: string)

  /** ChatColor.YELLOW, ChatColor.LIGHT_PURPLE and ChatColor.RESET as text. */
  const Yellow: string := [Section, 'e']
  const LightPurple: string := [Section, 'd']
  const Reset: string := [Section, 'r']

  function Bracketed(name: string): string
  {
    "[" + name + "] "
  }

  function Deliver(sender: Option<SenderKind>, text: string): (r: Outgoing)
    ensures r.text == text && (r.Broadcast? <==> sender.None?)
  {
    if sender.Some? then ToSender(text) else Broadcast(text)
  }

  /** sendPluginMessage(plg, sender, msg). */
  function SendPluginMessage(plugin: string, sender: Option<SenderKind>, msg: string): (r: Outgoing)
    ensures r.Broadcast? <==> sender.None?
    ensures r.text == (if sender == Some(PlayerSender) then Yellow + Bracketed(plugin) + Reset
                       else Bracketed(plugin)) + msg
  {
    var prefix := if sender == Some(PlayerSender) then Yellow + Bracketed(plugin) + Reset else Bracketed(plugin);
    Deliver(sender, prefix + msg)
  }

  /** sendTagMessage(plg, sender, tag, msg). */
  function SendTagMessage(plugin: string, sender: Option<SenderKind>, tag: string, msg: string): (r: Outgoing)
    ensures r.Broadcast? <==> sender.None?
  {
    var prefix := if sender == Some(PlayerSender) then LightPurple + Bracketed(tag) + Reset else Bracketed(plugin);
    Deliver(sender, prefix + msg)
  }

  /** Only players see the tag: to anyone else, and on a broadcast, a tag
      message reads exactly like a plugin message. */
  lemma TagShownOnlyToPlayers(plugin: string, sender: Option<SenderKind>, tag: string, msg: string)
    ensures sender != Some(PlayerSender) ==>
              SendTagMessage(plugin, sender, tag, msg) == SendPluginMessage(plugin, sender, msg)
    ensures sender == Some(PlayerSender) ==>
              SendTagMessage(plugin, sender, tag, msg).text == LightPurple + Bracketed(tag) + Reset + msg
  {
  }

  /** The message is the tail of the sent text after a prefix fixed by the
      plugin name and the kind of sender, so it is recovered unchanged. */
  lemma PluginMessageRecoverable(plugin: string, sender: Option<SenderKind>, msg: string)
    ensures var t := SendPluginMessage(plugin, sender, msg).text;
            var p := if sender == Some(PlayerSender) then |plugin| + 7 else |plugin| + 3;
            |t| == p + |msg| && t[p..] == msg
  {
    var t := SendPluginMessage(plugin, sender, msg).text;
    var prefix := if sender == Some(PlayerSender) then Yellow + Bracketed(plugin) + Reset else Bracketed(plugin);
    assert t == prefix + msg;
  }
}
