/**
  The per-client session: plugin and application factories, the control and
  command registration caches, and the two change queues.
 */
module Manager {
  import opened Wrappers
  import opened Dedup
  import opened Registry
  import opened Expiry

  /** The plugin cached under (name, context), if any. */
  function PluginSlot(cache: map<string, map<string, ControlId>>, name: string, context: string): Option<ControlId> {
    if name in cache && context in cache[name] then Some(cache[name][context]) else None
  }

  class Session {
    /** The model session's identifier, also used as the session token. */
    const id: string

    var expire: int

    var pluginCache: map<string, map<string, ControlId>>
    var applicationCache: map<string, ControlId>

    var controlCache: set<ControlId>
    var controlSubscriptions: seq<ControlId>
    var controlQueue: seq<ControlId>

    var commandCache: set<CommandId>
    var commandNameCache: map<CommandId, string>
    var commandSubscriptions: seq<CommandId>
    var commandQueue: seq<CommandId>

    /** The registration caches as one value. */
    function Caches(): Registry
      reads this
    {
      Registry(controlCache, controlSubscriptions, commandCache, commandNameCache, commandSubscriptions)
    }

    /** The cache invariant, and every control a factory made is registered. */
    ghost predicate Valid()
      reads this
    {
      && Inv(Caches())
      && (forall n, c :: n in pluginCache && c in pluginCache[n] ==> pluginCache[n][c] in controlCache)
      && (forall n :: n in applicationCache ==> applicationCache[n] in controlCache)
    }

    /** A new session: empty caches and queues, expiry at the earliest instant. */
    constructor (id: string)
      ensures Valid() && this.id == id
      ensures expire == 0
      ensures pluginCache == map[] && applicationCache == map[]
      ensures Caches() == Empty
      ensures controlQueue == [] && commandQueue == []
    {
      this.id := id;
      expire := 0;
      pluginCache := map[];
      applicationCache := map[];
      controlCache := {};
      controlSubscriptions := [];
      controlQueue := [];
      commandCache := {};
      commandNameCache := map[];
      commandSubscriptions := [];
      commandQueue := [];
    }

    // -------------------------------------------------------------------------
    // Expiry

    /** Restart the session lifetime at `now`. */
    method UpdateExpire(now: int, expireSession: int)
      modifies this`expire
      ensures expire == ExpiryAfter(now, expireSession)
      ensures forall t :: Expired(t) <==> t > ExpiryAfter(now, expireSession)
      ensures expireSession > 0 ==> !Expired(now)
    {
      expire := now + expireSession * TicksPerMinute;
    }

    /** The session's lifetime has run out: its expiry instant is before `now`. */
    predicate Expired(now: int)
      reads this
    {
      IsExpired(expire, now)
    }

    // -------------------------------------------------------------------------
    // Factories

    /**
      The plugin for (name, context). A cached plugin is returned as it is.
      Otherwise `made` is the outcome of constructing and binding one (`None`
      when that throws): a made plugin is cached and registered; a failure
      leaves the slot empty and the final lookup fails. Either way the inner
      dictionary for `name` now exists.
     */
    method Plugin(w: World, name: string, context: string, made: Option<ControlId>) returns (r: Option<ControlId>)
      requires Valid() && WellFormed(w)
      requires made.Some? ==> made.value < |w.controls|
      modifies this`pluginCache, this`controlCache, this`controlSubscriptions,
               this`commandCache, this`commandNameCache, this`commandSubscriptions
      ensures Valid()
      ensures name in pluginCache && pluginCache.Keys == old(pluginCache.Keys) + {name}
      ensures PluginSlot(pluginCache, name, context) == r
      ensures forall n, c :: (n, c) != (name, context) ==>
                PluginSlot(pluginCache, n, c) == PluginSlot(old(pluginCache), n, c)
      ensures old(PluginSlot(pluginCache, name, context)).Some? ==>
                r == old(PluginSlot(pluginCache, name, context)) && Caches() == old(Caches())
      ensures old(PluginSlot(pluginCache, name, context)).None? ==>
                && r == made
                && PluginSlot(pluginCache, name, context) == made
                && Caches() == (if made.Some? then Register(w, made.value, old(Caches())) else old(Caches()))
    {
      if name !in pluginCache {
        pluginCache := pluginCache[name := map[]];
      }
      if context !in pluginCache[name] {
        if made.Some? {
          var plugin := made.value;
          pluginCache := pluginCache[name := pluginCache[name][context := plugin]];
          RegisterEffect(w, plugin, Caches());
          ReachContainsArena(w, plugin);
          AddControlToCache(w, made);
        }
      }
      if context in pluginCache[name] {
        r := Some(pluginCache[name][context]);
      } else {
        r := None;
      }
    }

    /**
      The application called `name`: cached, or made from `made` and then
      cached and registered; a failed construction leaves no entry and the
      lookup fails.
     */
    method Application(w: World, name: string, made: Option<ControlId>) returns (r: Option<ControlId>)
      requires Valid() && WellFormed(w)
      requires made.Some? ==> made.value < |w.controls|
      modifies this`applicationCache, this`controlCache, this`controlSubscriptions,
               this`commandCache, this`commandNameCache, this`commandSubscriptions
      ensures Valid()
      ensures r == (if name in applicationCache then Some(applicationCache[name]) else None)
      ensures forall n :: n != name ==> (n in applicationCache <==> n in old(applicationCache))
      ensures forall n :: n != name && n in applicationCache ==> applicationCache[n] == old(applicationCache[n])
      ensures name in old(applicationCache) ==>
                r == Some(old(applicationCache[name])) && applicationCache == old(applicationCache)
                && Caches() == old(Caches())
      ensures name !in old(applicationCache) ==>
                && r == made
                && (name in applicationCache <==> made.Some?)
                && Caches() == (if made.Some? then Register(w, made.value, old(Caches())) else old(Caches()))
    {
      if name !in applicationCache {
        if made.Some? {
          var application := made.value;
          applicationCache := applicationCache[name := application];
          RegisterEffect(w, application, Caches());
          ReachContainsArena(w, application);
          AddControlToCache(w, made);
        }
      }
      if name in applicationCache {
        r := Some(applicationCache[name]);
      } else {
        r := None;
      }
    }

    // -------------------------------------------------------------------------
    // Control registration

    /**
      Register `control` (nothing for null): cache and subscribe it and
      register its commands the first time it is seen, then register each of
      its children whether or not it was already cached.
     */
    method AddControlToCache(w: World, control: Option<ControlId>)
      requires WellFormed(w)
      requires control.Some? ==> control.value < |w.controls|
      modifies this`controlCache, this`controlSubscriptions,
               this`commandCache, this`commandNameCache, this`commandSubscriptions
      ensures control.None? ==> Caches() == old(Caches())
      ensures control.Some? ==> Caches() == Register(w, control.value, old(Caches()))
      decreases if control.Some? then control.value + 1 else 0
    {
      if control.Some? {
        var c := control.value;
        var rec := w.controls[c];
        if c !in controlCache {
          controlCache := controlCache + {c};
          controlSubscriptions := controlSubscriptions + [c];
          ghost var added := Caches();
          var k := 0;
          while k < |rec.commands|
            invariant 0 <= k <= |rec.commands|
            invariant Caches() == AddCommands(added, rec.commands[..k])
          {
            assert rec.commands[..k + 1][..k] == rec.commands[..k];
            AddCommandToCache(rec.commands[k].0, rec.commands[k].1);
            k := k + 1;
          }
          assert rec.commands[..k] == rec.commands;
        }
        ghost var before := Caches();
        var j := 0;
        while j < |rec.children|
          invariant 0 <= j <= |rec.children|
          invariant Caches() == RegisterEach(w, rec.children[..j], before)
        {
          assert rec.children[..j + 1][..j] == rec.children[..j];
          AddControlToCache(w, Some(rec.children[j]));
          j := j + 1;
        }
        assert rec.children[..j] == rec.children;
      }
    }

    /** The cached control with this identity, or `None` (not found). */
    function Control(id: ControlId): (r: Option<ControlId>)
      reads this
      ensures r.Some? <==> id in controlCache
      ensures r.Some? ==> r.value == id
    {
      if id in controlCache then Some(id) else None
    }

    /**
      Change notification of a registered control: queue the sender, and
      register the control or controls the changed property holds.
     */
    method ControlPropertyChanged(w: World, sender: ControlId, propertyName: string)
      requires Valid() && WellFormed(w) && sender < |w.controls|
      modifies this`controlQueue, this`controlCache, this`controlSubscriptions,
               this`commandCache, this`commandNameCache, this`commandSubscriptions
      ensures Valid()
      ensures controlQueue == old(controlQueue) + [sender]
      ensures Caches() == PropertyRegistration(w, sender, propertyName, old(Caches()))
      ensures controlCache == old(controlCache) + PropertyReach(w, sender, propertyName)
    {
      ghost var start := Caches();
      PropertyRegistrationEffect(w, sender, propertyName, start);
      AddControlToQueue(sender);
      var props := w.controls[sender].properties;
      if propertyName in props {
        var property := props[propertyName];
        assert PropertyInArena(property, |w.controls|);
        match property {
          case Scalar =>
          case ControlValue(v) =>
            if v.Some? {
              AddControlToCache(w, v);
            }
          case ControlList(cs) =>
            var k := 0;
            while k < |cs|
              invariant 0 <= k <= |cs|
              invariant Caches() == RegisterEach(w, cs[..k], start)
              invariant controlQueue == old(controlQueue) + [sender]
            {
              assert cs[..k + 1][..k] == cs[..k];
              AddControlToCache(w, Some(cs[k]));
              k := k + 1;
            }
            assert cs[..k] == cs;
        }
      }
    }

    // -------------------------------------------------------------------------
    // Control change queue

    method AddControlToQueue(control: ControlId)
      modifies this`controlQueue
      ensures controlQueue == old(controlQueue) + [control]
    {
      controlQueue := controlQueue + [control];
    }

    /** Empty the queue, returning each queued control once, in first-queued order. */
    method GetControlsFromQueue() returns (ret: seq<ControlId>)
      modifies this`controlQueue
      ensures ret == Distinct(old(controlQueue))
      ensures controlQueue == []
    {
      ret := [];
      ghost var queued := controlQueue;
      while |controlQueue| > 0
        invariant |controlQueue| <= |queued|
        invariant controlQueue == queued[|queued| - |controlQueue|..]
        invariant ret == Distinct(queued[..|queued| - |controlQueue|])
        decreases |controlQueue|
      {
        ghost var n := |queued| - |controlQueue|;
        var control := controlQueue[0];
        controlQueue := controlQueue[1..];
        assert queued[..n + 1] == queued[..n] + [control];
        DistinctSnoc(queued[..n], control);
        if control !in ret {
          ret := ret + [control];
        }
      }
      assert queued[..|queued|] == queued;
    }

    // -------------------------------------------------------------------------
    // Command registration

    /** Cache, name and subscribe a command the first time it is seen. */
    method AddCommandToCache(name: string, command: CommandId)
      modifies this`commandCache, this`commandNameCache, this`commandSubscriptions
      ensures Caches() == AddCommand(old(Caches()), name, command)
    {
      if command !in commandCache {
        commandNameCache := commandNameCache[command := name];
        commandCache := commandCache + {command};
        commandSubscriptions := commandSubscriptions + [command];
      }
    }

    /** Executability change of a registered command: queue the sender. */
    method CommandCanExecuteChanged(sender: CommandId)
      modifies this`commandQueue
      ensures commandQueue == old(commandQueue) + [sender]
    {
      AddCommandToQueue(sender);
    }

    method AddCommandToQueue(command: CommandId)
      modifies this`commandQueue
      ensures commandQueue == old(commandQueue) + [command]
    {
      commandQueue := commandQueue + [command];
    }

    /** Empty the queue, returning each queued command once, in first-queued order. */
    method GetCommandsFromQueue() returns (ret: seq<CommandId>)
      modifies this`commandQueue
      ensures ret == Distinct(old(commandQueue))
      ensures commandQueue == []
    {
      ret := [];
      ghost var queued := commandQueue;
      while |commandQueue| > 0
        invariant |commandQueue| <= |queued|
        invariant commandQueue == queued[|queued| - |commandQueue|..]
        invariant ret == Distinct(queued[..|queued| - |commandQueue|])
        decreases |commandQueue|
      {
        ghost var n := |queued| - |commandQueue|;
        var command := commandQueue[0];
        commandQueue := commandQueue[1..];
        assert queued[..n + 1] == queued[..n] + [command];
        DistinctSnoc(queued[..n], command);
        if command !in ret {
          ret := ret + [command];
        }
      }
      assert queued[..|queued|] == queued;
    }

    /** The cached command with this identity, or `None` (not found). */
    function Command(id: CommandId): (r: Option<CommandId>)
      reads this
      ensures r.Some? <==> id in commandCache
      ensures r.Some? ==> r.value == id
    {
      if id in commandCache then Some(id) else None
    }

    /**
      The name the command was first registered under; found exactly for the
      cached commands.
     */
    function CommandName(id: CommandId): (r: Option<string>)
      requires Valid()
      reads this
      ensures r.Some? <==> id in commandCache
    {
      if id in commandNameCache then Some(commandNameCache[id]) else None
    }
  }
}
