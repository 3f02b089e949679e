/**
 * CommandFrame: a command with its permission gates and a table of
 * subcommands, each itself a CommandFrame.  The tree is a value here; the
 * table is a sequence of nodes with distinct names, kept in insertion order.
 */
module CommandFrame {
  import opened Wrappers
  import opened Strings

  datatype Command = Command(
    name: string,
    permission: string,       // getPermissionString()
    blockAllowed: bool,       // blockPermission
    consoleAllowed: bool,     // consolePermission
    playerAllowed: bool,      // playerPermission
    subs: seq<Command>)       // cmds

  datatype SenderKind = PlayerSender | ConsoleSender | BlockSender | OtherSender

  /** A command sender and the permission nodes it holds. */
  datatype Sender = Sender(kind: SenderKind, permissions: set<string>)

  /** The constructor: the name is stored lower-cased; blocks and the console
      may not run the command, players may. */
  function NewCommand(name: string, permission: string): (c: Command)
    ensures c.name == Lower(name) && c.permission == permission && c.subs == []
    ensures !c.blockAllowed && !c.consoleAllowed && c.playerAllowed
  {
    Command(Lower(name), permission, false, false, true, [])
  }

  function SetAuthConsole(c: Command, allowed: bool): Command { c.(consoleAllowed := allowed) }
  function SetAuthBlock(c: Command, allowed: bool): Command { c.(blockAllowed := allowed) }
  function SetAuthPlayer(c: Command, allowed: bool): Command { c.(playerAllowed := allowed) }

  predicate UniqueNames(subs: seq<Command>)
  {
    forall i, j :: 0 <= i < j < |subs| ==> subs[i].name != subs[j].name
  }

  /** cmds.get(key). */
  function Find(subs: seq<Command>, key: string): (r: Option<Command>)
    ensures r.Some? ==> r.value in subs && r.value.name == key
    ensures r.None? <==> forall i :: 0 <= i < |subs| ==> subs[i].name != key
    decreases |subs|
  {
    if subs == [] then None
    else if subs[0].name == key then Some(subs[0])
    else Find(subs[1..], key)
  }

  /** cmds.keySet(), in table order. */
  function Keys(subs: seq<Command>): (r: seq<string>)
    ensures |r| == |subs| && forall i :: 0 <= i < |subs| ==> r[i] == subs[i].name
  {
    seq(|subs|, i requires 0 <= i < |subs| => subs[i].name)
  }

  /** cmds.put(sub.getName(), sub): replaces the entry of that name, or adds one. */
  function Put(subs: seq<Command>, sub: Command): (r: seq<Command>)
    decreases |subs|
  {
    if subs == [] then [sub]
    else if subs[0].name == sub.name then [sub] + subs[1..]
    else [subs[0]] + Put(subs[1..], sub)
  }

  /** Put behaves as a map update: the new entry is found under its name,
      every other name finds what it found before, and names stay distinct. */
  lemma {:induction false} PutIsMapUpdate(subs: seq<Command>, sub: Command)
    requires UniqueNames(subs)
    ensures UniqueNames(Put(subs, sub))
    ensures Find(Put(subs, sub), sub.name) == Some(sub)
    ensures forall k :: k != sub.name ==> Find(Put(subs, sub), k) == Find(subs, k)
    ensures forall i :: 0 <= i < |Put(subs, sub)| ==> Put(subs, sub)[i] == sub || Put(subs, sub)[i] in subs
    decreases |subs|
  {
    if subs != [] && subs[0].name != sub.name {
      PutIsMapUpdate(subs[1..], sub);
      var r := Put(subs, sub);
      assert r[1..] == Put(subs[1..], sub);
      forall k | k != sub.name
        ensures Find(r, k) == Find(subs, k)
      {
      }
    }
  }

  /** addCommand(sub). */
  function AddCommand(c: Command, sub: Command): (r: Command)
    ensures r.(subs := c.subs) == c
  {
    c.(subs := Put(c.subs, sub))
  }

  lemma AddCommandFinds(c: Command, sub: Command)
    requires UniqueNames(c.subs)
    ensures UniqueNames(AddCommand(c, sub).subs)
    ensures Find(AddCommand(c, sub).subs, sub.name) == Some(sub)
    ensures forall k :: k != sub.name ==> Find(AddCommand(c, sub).subs, k) == Find(c.subs, k)
  {
    PutIsMapUpdate(c.subs, sub);
  }

  /** The loop that copies every argument but the first. */
  method StripFirst(args: seq<string>) returns (rest: seq<string>)
    requires |args| >= 1
    ensures [args[0]] + rest == args
  {
    rest := [];
    var first := true;
    for i := 0 to |args|
      invariant first == (i == 0)
      invariant rest == if i == 0 then [] else args[1..i]
    {
      if first {
        first := false;
        continue;
      }
      rest := rest + [args[i]];
    }
  }

  /** Why execute() refused to run the worker (a message goes to the sender
      and execute() returns true). */
  datatype Refusal = ConsoleRefused | BlockRefused | PlayerRefused | PermissionMissing

  datatype Outcome =
    | Refused(why: Refusal)
    | RunWorker(node: Command, args: seq<string>)   // worker(sender, args) on node; its result is returned

  /** The sender checks of execute(), in source order. */
  function Gate(c: Command, s: Sender): Option<Refusal>
  {
    if s.kind == ConsoleSender && !c.consoleAllowed then Some(ConsoleRefused)
    else if s.kind == BlockSender && !c.blockAllowed then Some(BlockRefused)
    else if s.kind == PlayerSender && !c.playerAllowed then Some(PlayerRefused)
    else if s.kind == PlayerSender && c.permission !in s.permissions then Some(PermissionMissing)
    else None
  }

  /** A sender passes the gate of a node exactly when its kind is allowed
      there and, for a player, when it holds the node's permission. */
  lemma GateOpenIff(c: Command, s: Sender)
    ensures Gate(c, s).None? <==>
              match s.kind
              case ConsoleSender => c.consoleAllowed
              case BlockSender => c.blockAllowed
              case PlayerSender => c.playerAllowed && c.permission in s.permissions
              case OtherSender => true
  {
  }

  /** Each setter moves only its own gate. */
  lemma SettersIndependent(c: Command, s: Sender, allowed: bool)
    ensures s.kind != ConsoleSender ==> Gate(SetAuthConsole(c, allowed), s) == Gate(c, s)
    ensures s.kind != BlockSender ==> Gate(SetAuthBlock(c, allowed), s) == Gate(c, s)
    ensures s.kind != PlayerSender ==> Gate(SetAuthPlayer(c, allowed), s) == Gate(c, s)
  {
  }

  /** The node execute() ends at and the arguments left for it: follow exact
      key matches of the first argument while there are subcommands. */
  function Resolve(c: Command, args: seq<string>): (r: (Command, seq<string>))
    ensures |r.1| <= |args| && r.1 == args[|args| - |r.1|..]
    decreases c
  {
    if |c.subs| > 0 && |args| >= 1 && Find(c.subs, args[0]).Some? then
      var r := Resolve(Find(c.subs, args[0]).value, args[1..]);
      assert args[1..][|args| - 1 - |r.1|..] == args[|args| - |r.1|..];
      r
    else (c, args)
  }

  /** The node reached by following a path of keys, if every key matches. */
  function Descend(c: Command, path: seq<string>): Option<Command>
    decreases |path|
  {
    if path == [] then Some(c)
    else match Find(c.subs, path[0])
      case None => None
      case Some(sub) => Descend(sub, path[1..])
  }

  /** Resolve consumes a path of matching keys, and stops only where the next
      argument is not a key (or there is none, or no subcommand). */
  lemma {:induction false} ResolveFollowsKeys(c: Command, args: seq<string>)
    ensures var (node, rest) := Resolve(c, args);
            var k := |args| - |rest|;
            && Descend(c, args[..k]) == Some(node)
            && (rest == [] || node.subs == [] || Find(node.subs, rest[0]).None?)
    decreases c
  {
    if |c.subs| > 0 && |args| >= 1 && Find(c.subs, args[0]).Some? {
      var sub := Find(c.subs, args[0]).value;
      ResolveFollowsKeys(sub, args[1..]);
      assert Resolve(c, args) == Resolve(sub, args[1..]);
      var rest := Resolve(sub, args[1..]).1;
      var k := |args| - |rest|;
      assert 1 <= k;
      var path := args[..k];
      assert path[0] == args[0];
      assert path[1..] == args[1..][..k - 1];
      assert Descend(c, path) == Descend(sub, path[1..]);
    } else {
      assert args[..0] == [];
    }
  }

  function Decide(c: Command, s: Sender, args: seq<string>): Outcome
  {
    match Gate(c, s)
    case Some(why) => Refused(why)
    case None => RunWorker(c, args)
  }

  /** execute(sender, args). */
  method Execute(c: Command, s: Sender, args: seq<string>) returns (r: Outcome)
    ensures r == Decide(Resolve(c, args).0, s, Resolve(c, args).1)
    decreases c
  {
    if |c.subs| > 0 && |args| >= 1 {
      var found := Find(c.subs, args[0]);
      if found.Some? {
        var rest := StripFirst(args);
        assert rest == args[1..];
        r := Execute(found.value, s, rest);
        return;
      }
    }
    r := Decide(c, s, args);
  }

  /** The worker runs exactly when the resolved node's gate is open, on the
      arguments left after the matched keys. */
  lemma WorkerRunsIffGateOpen(c: Command, s: Sender, args: seq<string>)
    ensures var (node, rest) := Resolve(c, args);
            (Decide(node, s, rest).RunWorker? <==> Gate(node, s).None?)
            && (Decide(node, s, rest).RunWorker? ==> Decide(node, s, rest).args == rest)
  {
  }

  datatype RangeCheck = InRange | TooFew | TooMany

  /** checkRange(sender, args, min, max); a negative bound is not checked. */
  function CheckRange(len: nat, min: int, max: int): (r: RangeCheck)
  {
    if min >= 0 && len < min then TooFew
    else if max >= 0 && len > max then TooMany
    else InRange
  }

  /** checkRange returns true exactly when the count meets both enabled
      bounds; with both bounds set and min <= max that is min <= len <= max. */
  lemma CheckRangeIff(len: nat, min: int, max: int)
    ensures CheckRange(len, min, max) == InRange <==> (min < 0 || min <= len) && (max < 0 || len <= max)
    ensures 0 <= min <= max ==> (CheckRange(len, min, max) == InRange <==> min <= len <= max)
    ensures min < 0 && max < 0 ==> CheckRange(len, min, max) == InRange
  {
  }

  /** The permission strings of a subtree, node first, then each subcommand's
      subtree in table order. */
  function Preorder(c: Command): seq<string>
    decreases c, 1
  {
    [c.permission] + PreorderAll(c.subs)
  }

  function PreorderAll(subs: seq<Command>): seq<string>
    decreases subs, 0
  {
    if subs == [] then [] else PreorderAll(subs[..|subs| - 1]) + Preorder(subs[|subs| - 1])
  }

  function Size(c: Command): nat
    decreases c, 1
  {
    1 + SizeAll(c.subs)
  }

  function SizeAll(subs: seq<Command>): nat
    decreases subs, 0
  {
    if subs == [] then 0 else SizeAll(subs[..|subs| - 1]) + Size(subs[|subs| - 1])
  }

  /** One permission string per node of the subtree. */
  lemma {:induction false} PreorderLength(c: Command)
    ensures |Preorder(c)| == Size(c)
    decreases c, 1
  {
    PreorderAllLength(c.subs);
  }

  lemma {:induction false} PreorderAllLength(subs: seq<Command>)
    ensures |PreorderAll(subs)| == SizeAll(subs)
    decreases subs, 0
  {
    if subs != [] {
      PreorderAllLength(subs[..|subs| - 1]);
      PreorderLength(subs[|subs| - 1]);
    }
  }

  /** getPermissionList(list): appends this node's permission, then lets
      every subcommand append its own list.  A null list behaves as an
      empty one. */
  method PermissionList(c: Command, list: seq<string>) returns (out: seq<string>)
    ensures out == list + Preorder(c)
    decreases c
  {
    out := list + [c.permission];
    for i := 0 to |c.subs|
      invariant out == list + [c.permission] + PreorderAll(c.subs[..i])
    {
      assert c.subs[..i + 1][..i] == c.subs[..i];
      out := PermissionList(c.subs[i], out);
    }
    assert c.subs[..|c.subs|] == c.subs;
  }

  /** The list grows by one entry per node of the subtree, starting with the
      node's own permission. */
  lemma PermissionListGrowth(c: Command, list: seq<string>)
    ensures |list + Preorder(c)| == |list| + Size(c)
    ensures (list + Preorder(c))[|list|] == c.permission
  {
    PreorderLength(c);
  }

  /** The text after the last ':' (all of it when there is none). */
  function AfterLastColon(s: string): (r: string)
    ensures ':' !in r && |r| <= |s| && r == s[|s| - |r|..]
    decreases |s|
  {
    if s == [] then []
    else if s[|s| - 1] == ':' then []
    else AfterLastColon(s[..|s| - 1]) + [s[|s| - 1]]
  }

  /** The lower-cased first argument with a leading "<plugin>:" removed. */
  function TabCheckKey(plugin: string, first: string): string
  {
    var check := Lower(first);
    if StartsWith(check, Lower(plugin) + ":") then AfterLastColon(check) else check
  }

  /** How onTabComplete proceeds at one node. */
  datatype TabStep = Delegate(sub: Command) | Local | NullDereference

  /** The delegation test of onTabComplete as written: it tests the key with
      the plugin prefix removed, but then fetches the subcommand by the
      lower-cased argument with the prefix still on. */
  function TabStepAsWritten(c: Command, plugin: string, strings: seq<string>): TabStep
  {
    if |c.subs| > 0 && |strings| >= 2 && Find(c.subs, TabCheckKey(plugin, strings[0])).Some? then
      match Find(c.subs, Lower(strings[0]))
      case None => NullDereference
      case Some(sub) => Delegate(sub)
    else Local
  }

  /** The delegation test with the fetch using the tested key. */
  function TabStepFixed(c: Command, plugin: string, strings: seq<string>): (r: TabStep)
    ensures r.Delegate? ==> r.sub in c.subs
    ensures !r.NullDereference?
  {
    if |c.subs| > 0 && |strings| >= 2 && Find(c.subs, TabCheckKey(plugin, strings[0])).Some? then
      Delegate(Find(c.subs, TabCheckKey(plugin, strings[0])).value)
    else Local
  }

  /** The text after the last ':' of `a:b`, when `b` has no colon, is `b`. */
  lemma {:induction false} AfterColonSuffix(a: string, b: string)
    requires ':' !in b
    ensures AfterLastColon(a + ":" + b) == b
    decreases |b|
  {
    var p := a + ":";
    assert |p| == |a| + 1 && p[|a|] == ':';
    if b == [] {
      assert p + b == p;
    } else {
      var front, last := b[..|b| - 1], b[|b| - 1];
      assert b == front + [last];
      assert p + b == (p + front) + [last];
      AfterColonSuffix(a, front);
      assert AfterLastColon((p + front) + [last]) == AfterLastColon(p + front) + [last] by {
        var t := (p + front) + [last];
        assert t[|t| - 1] == last != ':';
        assert t[..|t| - 1] == p + front;
      }
    }
  }

  /** For plugin "Eco", the argument "eco:sub" is tested as the key "sub". */
  lemma QualifiedKey()
    ensures Lower("eco:sub") == "eco:sub"
    ensures TabCheckKey("Eco", "eco:sub") == "sub"
  {
    LowerIdentity("eco:sub");
    assert Lower("Eco") == "eco" by {
      var l := Lower("Eco");
      assert l[0] == 'e' && l[1] == 'c' && l[2] == 'o';
    }
    assert StartsWith("eco:sub", "eco" + ":") by {
      assert "eco:sub"[..4] == "eco:";
    }
    AfterColonSuffix("eco", "sub");
    assert "eco" + ":" + "sub" == "eco:sub";
  }

  /** A plugin-qualified subcommand name ("eco:sub") makes the written lookup
      dereference null, where the fixed one delegates to "sub". */
  lemma TabQualifiedNameFails()
    ensures var sub := Command("sub", "eco.sub", false, false, true, []);
            var root := Command("eco", "eco.use", false, false, true, [sub]);
            TabStepAsWritten(root, "Eco", ["eco:sub", ""]) == NullDereference
            && TabStepFixed(root, "Eco", ["eco:sub", ""]) == Delegate(sub)
  {
    var sub := Command("sub", "eco.sub", false, false, true, []);
    var root := Command("eco", "eco.use", false, false, true, [sub]);
    QualifiedKey();
    assert "eco:sub" != "sub" by {
      assert |"eco:sub"| != |"sub"|;
    }
    assert Find(root.subs, "eco:sub") == None;
    assert Find(root.subs, "sub") == Some(sub);
    var strings := ["eco:sub", ""];
    assert strings[0] == "eco:sub" && |strings| == 2;
  }

  /** Without a plugin prefix on the first argument the two agree. */
  lemma TabStepAgreesUnqualified(c: Command, plugin: string, strings: seq<string>)
    requires |strings| >= 1 && !StartsWith(Lower(strings[0]), Lower(plugin) + ":")
    ensures TabStepAsWritten(c, plugin, strings) == TabStepFixed(c, plugin, strings)
  {
  }

  /** The subcommand keys that start with `typed`, in table order. */
  function Matching(keys: seq<string>, typed: string): (r: seq<string>)
    decreases |keys|
  {
    if keys == [] then []
    else (if StartsWith(keys[0], typed) then [keys[0]] else []) + Matching(keys[1..], typed)
  }

  /** Exactly the keys with the typed prefix are offered. */
  lemma {:induction false} MatchingIff(keys: seq<string>, typed: string, x: string)
    ensures x in Matching(keys, typed) <==> x in keys && StartsWith(x, typed)
    decreases |keys|
  {
    if keys != [] {
      MatchingIff(keys[1..], typed, x);
      assert keys == [keys[0]] + keys[1..];
    }
  }

  /** getTabComplete(sender, cmd, string, strings) of a node, given the node,
      the sender, the command alias typed and the arguments: None is null. */
  type TabHook = (Command, Sender, string, seq<string>) -> Option<seq<string>>

  /** What onTabComplete returns (with the fixed delegation). */
  function TabCompletion(c: Command, plugin: string, s: Sender, alias: string, strings: seq<string>,
                         hook: TabHook): seq<string>
    requires |strings| >= 1
    decreases c
  {
    match TabStepFixed(c, plugin, strings)
    case Delegate(sub) => TabCompletion(sub, plugin, s, strings[0], strings[1..], hook)
    case _ =>
      if !c.playerAllowed || c.permission !in s.permissions then []
      else
        Matching(Keys(c.subs), Lower(strings[0]))
        + (match hook(c, s, alias, strings) case None => [] case Some(extra) => extra)
  }

  /** At a node that handles completion itself, a sender without the
      permission (or any sender when players are barred) gets nothing;
      otherwise every matching key is offered, in key order, ahead of the
      hook's whole list. */
  lemma TabCompletionLocal(c: Command, plugin: string, s: Sender, alias: string, strings: seq<string>,
                           hook: TabHook, x: string)
    requires |strings| >= 1 && TabStepFixed(c, plugin, strings).Local?
    ensures !c.playerAllowed || c.permission !in s.permissions ==>
              TabCompletion(c, plugin, s, alias, strings, hook) == []
    ensures c.playerAllowed && c.permission in s.permissions ==>
              var offered := TabCompletion(c, plugin, s, alias, strings, hook);
              var keys := Matching(Keys(c.subs), Lower(strings[0]));
              && offered[..|keys|] == keys
              && (x in keys <==> x in Keys(c.subs) && StartsWith(x, Lower(strings[0])))
              && (hook(c, s, alias, strings).None? ==> offered == keys)
              && (hook(c, s, alias, strings).Some? ==> offered[|keys|..] == hook(c, s, alias, strings).value)
  {
    MatchingIff(Keys(c.subs), Lower(strings[0]), x);
  }

  /** onTabComplete: delegates one level down while the first argument names
      a subcommand and another argument follows; otherwise filters the keys
      by the typed prefix and appends the hook's candidates. */
  method TabComplete(c: Command, plugin: string, s: Sender, alias: string, strings: seq<string>,
                     hook: TabHook) returns (result: seq<string>)
    requires |strings| >= 1
    ensures result == TabCompletion(c, plugin, s, alias, strings, hook)
    decreases c
  {
    var step := TabStepFixed(c, plugin, strings);
    if step.Delegate? {
      var rest := StripFirst(strings);
      assert rest == strings[1..];
      result := TabComplete(step.sub, plugin, s, strings[0], rest, hook);
      return;
    }
    result := [];
    if !c.playerAllowed {
      return;
    }
    if c.permission !in s.permissions {
      return;
    }
    result := FilterKeys(Keys(c.subs), Lower(strings[0]));
    var list := hook(c, s, alias, strings);
    if list.Some? {
      result := AppendEach(result, list.value);
    }
  }

  /** The keys loop of onTabComplete: keeps, in order, the keys starting
      with the typed text. */
  method FilterKeys(keys: seq<string>, typed: string) returns (result: seq<string>)
    ensures result == Matching(keys, typed)
  {
    result := [];
    for i := 0 to |keys|
      invariant result + Matching(keys[i..], typed) == Matching(keys, typed)
    {
      ghost var later := Matching(keys[i + 1..], typed);
      assert keys[i..][1..] == keys[i + 1..];
      if StartsWith(keys[i], typed) {
        assert Matching(keys[i..], typed) == [keys[i]] + later;
        assert result + ([keys[i]] + later) == (result + [keys[i]]) + later by {
          var lhs, rhs := result + ([keys[i]] + later), (result + [keys[i]]) + later;
          forall k | 0 <= k < |lhs|
            ensures lhs[k] == rhs[k]
          {
          }
        }
        result := result + [keys[i]];
      } else {
        assert Matching(keys[i..], typed) == later;
      }
    }
    assert keys[|keys|..] == [];
  }

  /** The hook loop of onTabComplete: appends the hook's candidates one by one. */
  method AppendEach(front: seq<string>, extra: seq<string>) returns (result: seq<string>)
    ensures result == front + extra
  {
    result := front;
    for i := 0 to |extra|
      invariant result == front + extra[..i]
    {
      assert extra[..i + 1] == extra[..i] + [extra[i]];
      result := result + [extra[i]];
    }
    assert extra[..|extra|] == extra;
  }
}
