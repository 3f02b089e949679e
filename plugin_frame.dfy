/**
 * PluginFrame: the base of every plugin built on the framework.  A plugin
 * keeps the plugins it depends on (`plgMap`) and the plugins that depend on
 * it (`refMap`), both keyed by plugin name; registering and unregistering a
 * dependency updates one map on each side.  It also keeps its frames by
 * kind, dispatches commands to its CommandFrames by lower-cased name, and
 * keeps a list of frames to notify on reload without duplicates.
 */
module PluginFrame {
  import opened Wrappers
  import opened Strings
  import CommandFrame

  /** A frame registered with a plugin (CommandFrame, ConfigFrame,
      DatabaseFrame, ListenerFrame, TimerFrame, LoggerFrame).  A CommandFrame
      carries its command tree; the other kinds carry none. */
  class ManagedFrame {
    const command: Option<CommandFrame.Command>
    /** Manageable.registerManager stores the manager here. */
    var manager: Option<object>

    constructor (command: Option<CommandFrame.Command>)
      ensures this.command == command && manager.None?
    {
      this.command := command;
      manager := None;
    }
  }

  /** Sets the manager of every frame in `frames`, one frame at a time. */
  method SetManager(frames: set<ManagedFrame>, m: object, ghost done: set<ManagedFrame>)
    requires forall f :: f in done ==> f.manager == Some(m)
    modifies frames`manager
    ensures forall f :: f in frames + done ==> f.manager == Some(m)
  {
    var left := frames;
    while left != {}
      invariant left <= frames
      invariant forall f :: f in (frames + done) - left ==> f.manager == Some(m)
      decreases |left|
    {
      var f :| f in left;
      f.manager := Some(m);
      left := left - {f};
    }
  }

  /** The six for-loops of registerManager, one SetManager pass per table. */
  method SetManagers(cmds: set<ManagedFrame>, confs: set<ManagedFrame>, dbs: set<ManagedFrame>,
                     listeners: set<ManagedFrame>, timers: set<ManagedFrame>,
                     loggers: set<ManagedFrame>, m: object)
    modifies (cmds + confs + dbs + listeners + timers + loggers)`manager
    ensures forall f :: f in cmds + confs + dbs + listeners + timers + loggers ==> f.manager == Some(m)
  {
    SetManager(cmds, m, {});
    SetManager(confs, m, cmds);
    SetManager(dbs, m, cmds + confs);
    SetManager(listeners, m, cmds + confs + dbs);
    SetManager(timers, m, cmds + confs + dbs + listeners);
    SetManager(loggers, m, cmds + confs + dbs + listeners + timers);
  }

  /** What a lookup of a command name in `cmdMap` yields. */
  datatype Lookup<V> = Unregistered | Found(value: V) | NullLookup

  /** onCommand as written: tests the lower-cased name but fetches the name
      as typed, which yields null when the two differ. */
  function LookupAsWritten<V>(m: map<string, V>, name: string): Lookup<V>
  {
    if Lower(name) !in m then Unregistered
    else if name in m then Found(m[name])
    else NullLookup
  }

  /** The lookup onCommand evidently intends: test and fetch the same
      lower-cased key, as onTabComplete does. */
  function LookupFixed<V>(m: map<string, V>, name: string): (r: Lookup<V>)
    ensures r.Unregistered? <==> Lower(name) !in m
    ensures !r.NullLookup?
    ensures r.Found? ==> Lower(name) in m && r.value == m[Lower(name)]
  {
    if Lower(name) in m then Found(m[Lower(name)]) else Unregistered
  }

  /** Both lookups agree on names typed in lower case, and on names that
      are not registered at all. */
  lemma LookupAgreesOnLowerCase<V>(m: map<string, V>, name: string)
    requires Lower(name) == name || Lower(name) !in m
    ensures LookupAsWritten(m, name) == LookupFixed(m, name)
  {
  }

  /** A command declared as "Eco" is registered under "eco" (CommandFrame
      lower-cases its name); onCommand then passes the containsKey test and
      dereferences the null that get("Eco") returns. */
  lemma MixedCaseCommandFails()
    ensures LookupAsWritten(map["eco" := 0], "Eco") == NullLookup
    ensures LookupFixed(map["eco" := 0], "Eco") == Found(0)
  {
    assert Lower("Eco") == "eco" by {
      assert LowerChar('E') == 'e';
    }
    assert "Eco" != "eco" by {
      assert "Eco"[0] != "eco"[0];
    }
  }

  /** What onCommand returns: false for a command that is not this plugin's,
      otherwise what the CommandFrame's execute decides. */
  datatype Reply = NotHandled | Handled(outcome: CommandFrame.Outcome)

  class Plugin {
    const name: string
    var plgMap: map<string, Plugin>
    var refMap: map<string, Plugin>
    var reloadList: seq<object>
    var cmdMap: map<string, ManagedFrame>
    var confMap: map<string, ManagedFrame>
    var dbMap: map<string, ManagedFrame>
    var listenerMap: map<string, ManagedFrame>
    var timerMap: map<string, ManagedFrame>
    var loggerMap: map<string, ManagedFrame>
    var manager: Option<object>

    /** The tables as initialize() creates them, all empty, before it
        registers the other framework plugins. */
    constructor (name: string)
      ensures this.name == name && plgMap == map[] && refMap == map[] && reloadList == []
      ensures cmdMap == map[] && manager.None?
      ensures confMap == dbMap == listenerMap == timerMap == loggerMap == map[]
      ensures Frames() == {}
    {
      this.name := name;
      plgMap, refMap, reloadList := map[], map[], [];
      cmdMap, confMap, dbMap, listenerMap, timerMap, loggerMap := map[], map[], map[], map[], map[], map[];
      manager := None;
    }

    /** Every entry of cmdMap is a CommandFrame registered under its own
        (lower-cased) name. */
    ghost predicate CommandsValid()
      reads this
    {
      forall k :: k in cmdMap ==> cmdMap[k].command.Some? && cmdMap[k].command.value.name == k
    }

    /** registerPluginCommand(frame): files the frame under its name. */
    method RegisterCommand(f: ManagedFrame)
      requires CommandsValid() && f.command.Some?
      modifies this`cmdMap
      ensures CommandsValid()
      ensures cmdMap == old(cmdMap)[f.command.value.name := f]
    {
      cmdMap := cmdMap[f.command.value.name := f];
    }

    /** addRefPluginFrame(plg): records that `plg` depends on this plugin. */
    method AddRef(plg: Plugin)
      modifies this`refMap
      ensures refMap == old(refMap)[plg.name := plg]
    {
      refMap := refMap[plg.name := plg];
    }

    /** delRefPluginFrame(plg): forgets that `plg` depends on this plugin. */
    method DelRef(plg: Plugin)
      modifies this`refMap
      ensures refMap == old(refMap) - {plg.name}
    {
      refMap := refMap - {plg.name};
    }

    /** registerPluginFrame(name): `found` is what the plugin manager returns
        for `name` (after PlugMan was asked to load it, when present).  A
        found plugin is filed in plgMap and told that this plugin refers to
        it; otherwise no map changes.  Among the loaded plugins `ps`, the
        dependency maps stay consistent. */
    method Register(ghost ps: set<Plugin>, name: string, found: Option<Plugin>)
      requires found.Some? ==> found.value.name == name
      modifies this`plgMap, (if found.Some? then {found.value} else {})`refMap
      ensures found.None? ==> plgMap == old(plgMap) && refMap == old(refMap)
      ensures found.Some? ==>
                plgMap == old(plgMap)[name := found.value]
                && found.value.refMap == old(found.value.refMap)[this.name := this]
      ensures old(Consistent(ps)) && this in ps && (found.Some? ==> found.value in ps) ==> Consistent(ps)
    {
      ghost var plg, ref := PlgMaps(ps), RefMaps(ps);
      if found.Some? {
        var dest := found.value;
        plgMap := plgMap[name := dest];
        dest.AddRef(this);
        if this in ps && dest in ps {
          ghost var destRefs: map<string, Plugin> := ref[dest][this.name := this];
          forall x | x in ps
            ensures PlgMaps(ps)[x] == if x == this then plg[this][dest.name := dest] else plg[x]
          {
            assert plg[x] == old(x.plgMap);
            if x != this {
              assert x.plgMap == old(x.plgMap);
            }
          }
          forall x | x in ps
            ensures RefMaps(ps)[x] == if x == dest then destRefs else ref[x]
          {
            assert ref[x] == old(x.refMap);
            if x != dest {
              assert x.refMap == old(x.refMap);
            }
          }
          if ConsistentMaps(ps, plg, ref) {
            RegisterKeepsConsistent(ps, plg, ref, this, dest, PlgMaps(ps), RefMaps(ps));
          }
        }
      }
    }

    /** unregisterPluginFrame(name): tells the plugin filed under `name` that
        this plugin no longer refers to it, then drops the entry.  For a name
        that is not filed, get() yields null and the call fails (false).
        Among the loaded plugins `ps`, the dependency maps stay consistent. */
    method Unregister(ghost ps: set<Plugin>, name: string) returns (ok: bool)
      modifies this`plgMap, (if name in plgMap then {plgMap[name]} else {})`refMap
      ensures ok == (name in old(plgMap))
      ensures !ok ==> plgMap == old(plgMap) && refMap == old(refMap)
      ensures ok ==>
                plgMap == old(plgMap) - {name}
                && old(plgMap[name]).refMap == old(plgMap[name].refMap) - {this.name}
      ensures old(Consistent(ps)) && this in ps ==> Consistent(ps)
    {
      if name !in plgMap {
        return false;
      }
      ghost var plg, ref := PlgMaps(ps), RefMaps(ps);
      var target := plgMap[name];
      target.DelRef(this);
      plgMap := plgMap - {name};
      ok := true;
      if this in ps {
        forall x | x in ps
          ensures PlgMaps(ps)[x] == if x == this then plg[this] - {name} else plg[x]
        {
          assert plg[x] == old(x.plgMap);
          if x != this {
            assert x.plgMap == old(x.plgMap);
          }
        }
        forall x | x in ps
          ensures RefMaps(ps)[x] == if x == target then ref[x] - {this.name} else ref[x]
        {
          assert ref[x] == old(x.refMap);
          if x != target {
            assert x.refMap == old(x.refMap);
          }
        }
        if ConsistentMaps(ps, plg, ref) {
          assert target == plg[this][name];
          UnregisterKeepsConsistent(ps, plg, ref, this, name, PlgMaps(ps), RefMaps(ps));
        }
      }
    }

    /** registerNotifiable(frame): appends the frame unless already listed. */
    method RegisterNotifiable(f: object)
      modifies this`reloadList
      ensures f in reloadList
      ensures reloadList == old(reloadList) + (if f in old(reloadList) then [] else [f])
      ensures NoDuplicates(old(reloadList)) ==> NoDuplicates(reloadList)
    {
      if f !in reloadList {
        reloadList := reloadList + [f];
      }
    }

    /** registerManager(m): stores the manager and hands it to every frame
        in the six frame tables. */
    method RegisterManager(m: object)
      modifies this`manager, Frames()`manager
      ensures manager == Some(m)
      ensures forall f :: f in Frames() ==> f.manager == Some(m)
    {
      manager := Some(m);
      SetManagers(cmdMap.Values, confMap.Values, dbMap.Values,
                  listenerMap.Values, timerMap.Values, loggerMap.Values, m);
    }

    /** Every frame of the six tables. */
    function Frames(): set<ManagedFrame>
      reads this
    {
      cmdMap.Values + confMap.Values + dbMap.Values
      + listenerMap.Values + timerMap.Values + loggerMap.Values
    }

    /** onCommand(sender, cmd, label, args), with the lookup corrected: a
        command this plugin did not register is not handled; otherwise its
        CommandFrame executes it. */
    method OnCommand(s: CommandFrame.Sender, command: string, args: seq<string>) returns (r: Reply)
      requires CommandsValid()
      ensures r.NotHandled? <==> Lower(command) !in cmdMap
      ensures r.Handled? ==>
                var c := cmdMap[Lower(command)].command.value;
                r.outcome == CommandFrame.Decide(CommandFrame.Resolve(c, args).0, s, CommandFrame.Resolve(c, args).1)
    {
      match LookupFixed(cmdMap, command)
      case Found(f) =>
        var outcome := CommandFrame.Execute(f.command.value, s, args);
        r := Handled(outcome);
      case _ =>
        r := NotHandled;
    }

    /** onTabComplete(sender, cmd, string, strings): nothing for a command
        this plugin did not register; otherwise its CommandFrame's
        completion, with this plugin's name as the qualifying prefix. */
    method OnTabComplete(s: CommandFrame.Sender, command: string, strings: seq<string>,
                         hook: CommandFrame.TabHook) returns (r: seq<string>)
      requires CommandsValid() && |strings| >= 1
      ensures Lower(command) !in cmdMap ==> r == []
      ensures Lower(command) in cmdMap ==>
                r == CommandFrame.TabCompletion(cmdMap[Lower(command)].command.value, name, s, command, strings, hook)
    {
      if Lower(command) !in cmdMap {
        return [];
      }
      r := CommandFrame.TabComplete(cmdMap[Lower(command)].command.value, name, s, command, strings, hook);
    }
  }

  predicate NoDuplicates<T(==)>(xs: seq<T>)
  {
    forall i, j :: 0 <= i < j < |xs| ==> xs[i] != xs[j]
  }

  /** The dependency maps of a set of loaded plugins are mutually
      consistent: names identify plugins, every entry is filed under its
      plugin's name, and B is among A's dependencies exactly when A is among
      B's dependents. */
  ghost predicate Consistent(ps: set<Plugin>)
    reads ps
  {
    ConsistentMaps(ps, PlgMaps(ps), RefMaps(ps))
  }

  /** Each plugin's plgMap, as a value. */
  ghost function PlgMaps(ps: set<Plugin>): map<Plugin, map<string, Plugin>>
    reads ps
  {
    map a | a in ps :: a.plgMap
  }

  /** Each plugin's refMap, as a value. */
  ghost function RefMaps(ps: set<Plugin>): map<Plugin, map<string, Plugin>>
    reads ps
  {
    map a | a in ps :: a.refMap
  }

  /** Consistent, over given dependency maps `plg` and dependent maps `ref`. */
  ghost predicate ConsistentMaps(ps: set<Plugin>, plg: map<Plugin, map<string, Plugin>>,
                                 ref: map<Plugin, map<string, Plugin>>)
  {
    && ps <= plg.Keys && ps <= ref.Keys
    && UniqueNames(ps)
    && Filed(ps, plg) && Filed(ps, ref)
    && Mirrored(ps, plg, ref)
  }

  /** No two loaded plugins share a name. */
  ghost predicate UniqueNames(ps: set<Plugin>)
  {
    forall a, b :: a in ps && b in ps && a.name == b.name ==> a == b
  }

  /** Every entry of every plugin's map is a loaded plugin filed under its name. */
  ghost predicate Filed(ps: set<Plugin>, m: map<Plugin, map<string, Plugin>>)
  {
    forall a, k :: a in ps && a in m && k in m[a] ==> m[a][k] in ps && m[a][k].name == k
  }

  /** B is among A's dependencies exactly when A is among B's dependents. */
  ghost predicate Mirrored(ps: set<Plugin>, plg: map<Plugin, map<string, Plugin>>,
                           ref: map<Plugin, map<string, Plugin>>)
  {
    forall a, b :: a in ps && b in ps && a in plg && b in ref ==> (b.name in plg[a] <==> a.name in ref[b])
  }

  /** Filing a loaded plugin under its own name keeps every entry filed. */
  lemma FiledAfterPut(ps: set<Plugin>, m: map<Plugin, map<string, Plugin>>, a: Plugin, v: Plugin,
                      m2: map<Plugin, map<string, Plugin>>)
    requires Filed(ps, m) && ps <= m.Keys && v in ps
    requires forall x :: x in ps ==> x in m2 && m2[x] == if x == a then m[a][v.name := v] else m[x]
    ensures Filed(ps, m2)
  {
    forall x, k | x in ps && x in m2 && k in m2[x]
      ensures m2[x][k] in ps && m2[x][k].name == k
    {
      if x != a {
        assert m2[x] == m[x];
      } else if k != v.name {
        assert m2[x][k] == m[x][k];
      }
    }
  }

  /** Removing an entry keeps every other entry filed. */
  lemma FiledAfterRemove(ps: set<Plugin>, m: map<Plugin, map<string, Plugin>>, a: Plugin, k0: string,
                         m2: map<Plugin, map<string, Plugin>>)
    requires Filed(ps, m) && ps <= m.Keys
    requires forall x :: x in ps ==> x in m2 && m2[x] == if x == a then m[a] - {k0} else m[x]
    ensures Filed(ps, m2)
  {
    forall x, k | x in ps && x in m2 && k in m2[x]
      ensures m2[x][k] in ps && m2[x][k].name == k
    {
      if x != a {
        assert m2[x] == m[x];
      } else {
        assert m2[x][k] == m[x][k];
      }
    }
  }

  /** Filing `d` among `a`'s dependencies and `a` among `d`'s dependents
      keeps the maps consistent. */
  lemma RegisterKeepsConsistent(ps: set<Plugin>, plg: map<Plugin, map<string, Plugin>>,
                                ref: map<Plugin, map<string, Plugin>>, a: Plugin, d: Plugin,
                                plg2: map<Plugin, map<string, Plugin>>,
                                ref2: map<Plugin, map<string, Plugin>>)
    requires ConsistentMaps(ps, plg, ref) && a in ps && d in ps
    requires ps <= plg2.Keys && ps <= ref2.Keys
    requires forall x :: x in ps ==> plg2[x] == if x == a then plg[a][d.name := d] else plg[x]
    requires forall x :: x in ps ==> ref2[x] == if x == d then ref[d][a.name := a] else ref[x]
    ensures ConsistentMaps(ps, plg2, ref2)
  {
    FiledAfterPut(ps, plg, a, d, plg2);
    FiledAfterPut(ps, ref, d, a, ref2);
    MirroredAfterChange(ps, plg, ref, a, d, plg2, ref2, true);
  }

  /** Dropping the dependency `name` of `a`, and `a` from that plugin's
      dependents, keeps the maps consistent. */
  lemma UnregisterKeepsConsistent(ps: set<Plugin>, plg: map<Plugin, map<string, Plugin>>,
                                  ref: map<Plugin, map<string, Plugin>>, a: Plugin, name: string,
                                  plg2: map<Plugin, map<string, Plugin>>,
                                  ref2: map<Plugin, map<string, Plugin>>)
    requires ConsistentMaps(ps, plg, ref) && a in ps && name in plg[a]
    requires ps <= plg2.Keys && ps <= ref2.Keys
    requires forall x :: x in ps ==> plg2[x] == if x == a then plg[a] - {name} else plg[x]
    requires forall x :: x in ps ==>
               ref2[x] == if x == plg[a][name] then ref[x] - {a.name} else ref[x]
    ensures ConsistentMaps(ps, plg2, ref2)
  {
    var d := plg[a][name];
    assert d in ps && d.name == name;
    FiledAfterRemove(ps, plg, a, name, plg2);
    FiledAfterRemove(ps, ref, d, a.name, ref2);
    MirroredAfterChange(ps, plg, ref, a, d, plg2, ref2, false);
  }

  /** Adding (or removing) `d` among `a`'s dependencies together with `a`
      among `d`'s dependents keeps the two directions mirrored. */
  lemma MirroredAfterChange(ps: set<Plugin>, plg: map<Plugin, map<string, Plugin>>,
                            ref: map<Plugin, map<string, Plugin>>, a: Plugin, d: Plugin,
                            plg2: map<Plugin, map<string, Plugin>>,
                            ref2: map<Plugin, map<string, Plugin>>, add: bool)
    requires UniqueNames(ps) && Mirrored(ps, plg, ref) && a in ps && d in ps
    requires ps <= plg.Keys && ps <= ref.Keys && ps <= plg2.Keys && ps <= ref2.Keys
    requires forall x :: x in ps ==>
               plg2[x] == if x != a then plg[x] else if add then plg[a][d.name := d] else plg[a] - {d.name}
    requires forall x :: x in ps ==>
               ref2[x] == if x != d then ref[x] else if add then ref[d][a.name := a] else ref[d] - {a.name}
    ensures Mirrored(ps, plg2, ref2)
  {
    forall x, y | x in ps && y in ps && x in plg2 && y in ref2
      ensures y.name in plg2[x] <==> x.name in ref2[y]
    {
      if x == a && y == d {
      } else if x == a {
        assert ref2[y] == ref[y];
        assert y.name != d.name;
      } else if y == d {
        assert plg2[x] == plg[x];
        assert x.name != a.name;
      } else {
        assert plg2[x] == plg[x] && ref2[y] == ref[y];
      }
    }
  }
}
