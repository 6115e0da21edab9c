/**
  The session's registration caches as a value: which controls and commands
  are cached, the name each command was registered under, and the log of
  change subscriptions made (one entry per `+=` on an object's event).

  Controls and commands live in an arena (`World`) and are identified by their
  handle, which plays the part of the object's `ID`. A child always has a
  smaller handle than its parent: the arena is numbered bottom-up, which is
  how the model states that the control tree is acyclic.
 */
module Registry {
  import opened Wrappers
  import opened Dedup

  type ControlId = nat
  type CommandId = nat

  /**
    What a control property holds, as far as change propagation is concerned:
    a plain value, a single control (possibly null) or a list of controls.
   */
  datatype Property = Scalar | ControlValue(control: Option<ControlId>) | ControlList(controls: seq<ControlId>)

  /** A control: its named commands, its child controls and its properties. */
  datatype ControlRec = ControlRec(
    commands: seq<(string, CommandId)>,
    children: seq<ControlId>,
    properties: map<string, Property>)

  /** The arena: the control records, and how many commands exist (handles `0 .. commandCount - 1`). */
  datatype World = World(controls: seq<ControlRec>, commandCount: nat)

  predicate PropertyInArena(p: Property, n: nat) {
    match p
    case Scalar => true
    case ControlValue(c) => c.Some? ==> c.value < n
    case ControlList(cs) => forall k :: 0 <= k < |cs| ==> cs[k] < n
  }

  /** Every reference resolves in the arena and children precede their parents. */
  ghost predicate WellFormed(w: World) {
    && (forall i, k :: 0 <= i < |w.controls| && 0 <= k < |w.controls[i].children| ==>
          w.controls[i].children[k] < i)
    && (forall i, k :: 0 <= i < |w.controls| && 0 <= k < |w.controls[i].commands| ==>
          w.controls[i].commands[k].1 < w.commandCount)
    && (forall i, n :: 0 <= i < |w.controls| && n in w.controls[i].properties ==>
          PropertyInArena(w.controls[i].properties[n], |w.controls|))
  }

  predicate AllIn(cs: seq<ControlId>, n: nat) {
    forall k :: 0 <= k < |cs| ==> cs[k] < n
  }

  /** One more than the largest handle in `cs`; bounds the recursion. */
  function Bound(cs: seq<ControlId>): (b: nat)
    ensures forall k :: 0 <= k < |cs| ==> cs[k] < b
    ensures b > 0 ==> b - 1 in cs
  {
    if cs == [] then 0
    else
      var p := Bound(cs[..|cs| - 1]);
      if cs[|cs| - 1] + 1 > p then cs[|cs| - 1] + 1 else p
  }

  datatype Registry = Registry(
    controls: set<ControlId>,
    controlSubscriptions: seq<ControlId>,
    commands: set<CommandId>,
    commandNames: map<CommandId, string>,
    commandSubscriptions: seq<CommandId>)

  const Empty := Registry({}, [], {}, map[], [])

  /**
    The cache invariant: every cached object is subscribed exactly once and
    nothing else is, and the command and command-name caches have one key set.
   */
  ghost predicate Inv(r: Registry) {
    && NoDup(r.controlSubscriptions)
    && (forall c :: c in r.controlSubscriptions <==> c in r.controls)
    && NoDup(r.commandSubscriptions)
    && (forall c :: c in r.commandSubscriptions <==> c in r.commands)
    && r.commandNames.Keys == r.commands
  }

  /** The command cache step: a new command is named, cached and subscribed. */
  function AddCommand(r: Registry, name: string, cmd: CommandId): Registry {
    if cmd in r.commands then r
    else r.(commandNames := r.commandNames[cmd := name],
            commands := r.commands + {cmd},
            commandSubscriptions := r.commandSubscriptions + [cmd])
  }

  /** `AddCommand` for each named command, in order. */
  function AddCommands(r: Registry, cmds: seq<(string, CommandId)>): Registry {
    if cmds == [] then r
    else
      var last := cmds[|cmds| - 1];
      AddCommand(AddCommands(r, cmds[..|cmds| - 1]), last.0, last.1)
  }

  /** The control cache step: a new control is cached and subscribed. */
  function AddControl(r: Registry, c: ControlId): Registry {
    if c in r.controls then r
    else r.(controls := r.controls + {c}, controlSubscriptions := r.controlSubscriptions + [c])
  }

  /**
    Recursive registration of control `c`: cache and subscribe it and register
    its commands if it is new, then register every child whether or not it was.
   */
  function Register(w: World, c: ControlId, r: Registry): Registry
    requires WellFormed(w) && c < |w.controls|
    decreases c + 1, 0
  {
    var rec := w.controls[c];
    var r1 := if c in r.controls then r else AddCommands(AddControl(r, c), rec.commands);
    RegisterEach(w, rec.children, r1)
  }

  /** `Register` for each control of `cs`, in order. */
  function RegisterEach(w: World, cs: seq<ControlId>, r: Registry): Registry
    requires WellFormed(w) && AllIn(cs, |w.controls|)
    decreases Bound(cs), |cs|
  {
    if cs == [] then r
    else Register(w, cs[|cs| - 1], RegisterEach(w, cs[..|cs| - 1], r))
  }

  /** `c` and every control below it. */
  function Reach(w: World, c: ControlId): set<ControlId>
    requires WellFormed(w) && c < |w.controls|
    decreases c + 1, 0
  {
    {c} + ReachEach(w, w.controls[c].children)
  }

  function ReachEach(w: World, cs: seq<ControlId>): set<ControlId>
    requires WellFormed(w) && AllIn(cs, |w.controls|)
    decreases Bound(cs), |cs|
  {
    if cs == [] then {}
    else ReachEach(w, cs[..|cs| - 1]) + Reach(w, cs[|cs| - 1])
  }

  /** The commands exposed by the controls in `xs`. */
  ghost function CommandsOf(w: World, xs: set<ControlId>): set<CommandId> {
    set x, p | x in xs && x < |w.controls| && p in w.controls[x].commands :: p.1
  }

  // ---------------------------------------------------------------------------
  // Properties of the command cache step

  lemma AddCommandsEffect(r: Registry, cmds: seq<(string, CommandId)>)
    ensures AddCommands(r, cmds).controls == r.controls
    ensures AddCommands(r, cmds).controlSubscriptions == r.controlSubscriptions
    ensures AddCommands(r, cmds).commands == r.commands + (set p | p in cmds :: p.1)
    ensures r.commandNames.Keys <= AddCommands(r, cmds).commandNames.Keys
    ensures r.commandNames.Keys <= r.commands ==>
              forall k :: k in r.commandNames ==> AddCommands(r, cmds).commandNames[k] == r.commandNames[k]
    ensures Inv(r) ==> Inv(AddCommands(r, cmds))
  {
    if cmds != [] {
      var p := cmds[..|cmds| - 1];
      AddCommandsEffect(r, p);
      assert cmds == p + [cmds[|cmds| - 1]];
      assert (set q | q in cmds :: q.1) == (set q | q in p :: q.1) + {cmds[|cmds| - 1].1};
    }
  }

  /** A command already cached keeps its first name; a new one gets this name. */
  lemma AddCommandKeepsFirstName(r: Registry, name: string, cmd: CommandId)
    requires Inv(r)
    ensures cmd in r.commands ==> AddCommand(r, name, cmd) == r
    ensures cmd !in r.commands ==> AddCommand(r, name, cmd).commandNames == r.commandNames[cmd := name]
    ensures Inv(AddCommand(r, name, cmd))
    ensures AddCommand(r, name, cmd).commands == r.commands + {cmd}
  {
  }

  // ---------------------------------------------------------------------------
  // Properties of recursive registration

  lemma {:induction false} ReachContainsArena(w: World, c: ControlId)
    requires WellFormed(w) && c < |w.controls|
    ensures c in Reach(w, c)
    ensures forall x :: x in Reach(w, c) ==> x <= c
    decreases c + 1, 0
  {
    ReachEachBelow(w, w.controls[c].children, c);
  }

  lemma {:induction false} ReachEachBelow(w: World, cs: seq<ControlId>, bound: nat)
    requires WellFormed(w) && AllIn(cs, |w.controls|)
    requires forall k :: 0 <= k < |cs| ==> cs[k] < bound
    ensures forall x :: x in ReachEach(w, cs) ==> x < bound
    decreases Bound(cs), |cs|
  {
    if cs != [] {
      ReachEachBelow(w, cs[..|cs| - 1], bound);
      ReachContainsArena(w, cs[|cs| - 1]);
    }
  }

  /**
    Registration caches exactly the control and its descendants, keeps every
    earlier entry and earlier subscription, never renames a cached command,
    and keeps the cache invariant.
   */
  lemma {:induction false} RegisterEffect(w: World, c: ControlId, r: Registry)
    requires WellFormed(w) && c < |w.controls|
    ensures Register(w, c, r).controls == r.controls + Reach(w, c)
    ensures r.commands <= Register(w, c, r).commands
    ensures Inv(r) ==> forall k :: k in r.commandNames ==>
              k in Register(w, c, r).commandNames && Register(w, c, r).commandNames[k] == r.commandNames[k]
    ensures r.controlSubscriptions <= Register(w, c, r).controlSubscriptions
    ensures Inv(r) ==> Inv(Register(w, c, r))
    decreases c + 1, 0
  {
    var rec := w.controls[c];
    var r1 := if c in r.controls then r else AddCommands(AddControl(r, c), rec.commands);
    AddCommandsEffect(AddControl(r, c), rec.commands);
    RegisterEachEffect(w, rec.children, r1);
  }

  lemma {:induction false} RegisterEachEffect(w: World, cs: seq<ControlId>, r: Registry)
    requires WellFormed(w) && AllIn(cs, |w.controls|)
    ensures RegisterEach(w, cs, r).controls == r.controls + ReachEach(w, cs)
    ensures r.commands <= RegisterEach(w, cs, r).commands
    ensures Inv(r) ==> forall k :: k in r.commandNames ==>
              k in RegisterEach(w, cs, r).commandNames && RegisterEach(w, cs, r).commandNames[k] == r.commandNames[k]
    ensures r.controlSubscriptions <= RegisterEach(w, cs, r).controlSubscriptions
    ensures Inv(r) ==> Inv(RegisterEach(w, cs, r))
    decreases Bound(cs), |cs|
  {
    if cs != [] {
      var p := cs[..|cs| - 1];
      RegisterEachEffect(w, p, r);
      RegisterEffect(w, cs[|cs| - 1], RegisterEach(w, p, r));
    }
  }

  /**
    The commands a registration caches are exactly those of the controls it
    caches for the first time.
   */
  lemma {:induction false} RegisterCommands(w: World, c: ControlId, r: Registry)
    requires WellFormed(w) && c < |w.controls|
    ensures Register(w, c, r).commands == r.commands + CommandsOf(w, Reach(w, c) - r.controls)
    decreases c + 1, 0
  {
    var rec := w.controls[c];
    var r1 := if c in r.controls then r else AddCommands(AddControl(r, c), rec.commands);
    AddCommandsEffect(AddControl(r, c), rec.commands);
    RegisterEachCommands(w, rec.children, r1);
    ReachContainsArena(w, c);
    if c in r.controls {
      assert Reach(w, c) - r.controls == ReachEach(w, rec.children) - r.controls;
    } else {
      assert r1.controls == r.controls + {c};
      CommandsOfSplit(w, {c}, ReachEach(w, rec.children) - r1.controls, Reach(w, c) - r.controls);
      assert CommandsOf(w, {c}) == (set p | p in rec.commands :: p.1);
    }
  }

  lemma {:induction false} RegisterEachCommands(w: World, cs: seq<ControlId>, r: Registry)
    requires WellFormed(w) && AllIn(cs, |w.controls|)
    ensures RegisterEach(w, cs, r).commands == r.commands + CommandsOf(w, ReachEach(w, cs) - r.controls)
    decreases Bound(cs), |cs|
  {
    if cs != [] {
      var p, y := cs[..|cs| - 1], cs[|cs| - 1];
      var rp := RegisterEach(w, p, r);
      RegisterEachCommands(w, p, r);
      RegisterEachEffect(w, p, r);
      RegisterCommands(w, y, rp);
      CommandsOfSplit(w, {}, ReachEach(w, p) - r.controls, ReachEach(w, p) - r.controls);
      CommandsOfSplit(w, ReachEach(w, p) - r.controls, Reach(w, y) - rp.controls, ReachEach(w, cs) - r.controls);
    }
  }

  /** `CommandsOf` of a set is that of any two parts covering it, when the parts cover it exactly. */
  lemma CommandsOfSplit(w: World, a: set<ControlId>, b: set<ControlId>, u: set<ControlId>)
    requires u == a + b
    ensures CommandsOf(w, u) == CommandsOf(w, a) + CommandsOf(w, b)
  {
  }

  /** Registering a control whose whole subtree is cached changes nothing. */
  lemma {:induction false} RegisterCached(w: World, c: ControlId, r: Registry)
    requires WellFormed(w) && c < |w.controls|
    requires Reach(w, c) <= r.controls
    ensures Register(w, c, r) == r
    decreases c + 1, 0
  {
    RegisterEachCached(w, w.controls[c].children, r);
  }

  lemma {:induction false} RegisterEachCached(w: World, cs: seq<ControlId>, r: Registry)
    requires WellFormed(w) && AllIn(cs, |w.controls|)
    requires ReachEach(w, cs) <= r.controls
    ensures RegisterEach(w, cs, r) == r
    decreases Bound(cs), |cs|
  {
    if cs != [] {
      RegisterEachCached(w, cs[..|cs| - 1], r);
      RegisterCached(w, cs[|cs| - 1], r);
    }
  }

  /** Registering the same root twice is the same as registering it once. */
  lemma RegisterIdempotent(w: World, c: ControlId, r: Registry)
    requires WellFormed(w) && c < |w.controls|
    ensures Register(w, c, Register(w, c, r)) == Register(w, c, r)
  {
    RegisterEffect(w, c, r);
    RegisterCached(w, c, Register(w, c, r));
  }

  // ---------------------------------------------------------------------------
  // Registration triggered by a property change

  /**
    The registration a property change causes: nothing unless the sender has
    the property; the control it holds, if any; each control of a list.
   */
  function PropertyRegistration(w: World, sender: ControlId, name: string, r: Registry): Registry
    requires WellFormed(w) && sender < |w.controls|
  {
    var props := w.controls[sender].properties;
    if name !in props then r
    else
      match props[name]
      case Scalar => r
      case ControlValue(v) => if v.Some? then Register(w, v.value, r) else r
      case ControlList(cs) => RegisterEach(w, cs, r)
  }

  /** The controls a property change brings into the cache. */
  function PropertyReach(w: World, sender: ControlId, name: string): set<ControlId>
    requires WellFormed(w) && sender < |w.controls|
  {
    var props := w.controls[sender].properties;
    if name !in props then {}
    else
      match props[name]
      case Scalar => {}
      case ControlValue(v) => if v.Some? then Reach(w, v.value) else {}
      case ControlList(cs) => ReachEach(w, cs)
  }

  /**
    A property change caches exactly the controls held by the property and
    their descendants, and keeps the cache invariant.
   */
  lemma PropertyRegistrationEffect(w: World, sender: ControlId, name: string, r: Registry)
    requires WellFormed(w) && sender < |w.controls|
    ensures PropertyRegistration(w, sender, name, r).controls == r.controls + PropertyReach(w, sender, name)
    ensures Inv(r) ==> Inv(PropertyRegistration(w, sender, name, r))
  {
    var props := w.controls[sender].properties;
    if name in props {
      assert PropertyInArena(props[name], |w.controls|);
      match props[name]
      case Scalar =>
      case ControlValue(v) => if v.Some? { RegisterEffect(w, v.value, r); }
      case ControlList(cs) => RegisterEachEffect(w, cs, r);
    }
  }
}
