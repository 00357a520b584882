/**
 The same programs by plain environment passing: no cell, no guards, no stores swapped in and out. A
 program runs in an environment of bindings and names, a block runs in an environment of its own, and
 what follows it continues in the one from before. Every program sees the same either way.
 */
module PlainScoping {
  import opened Wrappers
  import opened Overlays
  import opened Scopes
  import opened Registry
  import opened Snapshots
  import opened Runtime
  import Forking

  /** What a store's own scopes bind and what it inherited by a fork, flat, with the names of each and the depth. */
  datatype Plain = Plain(
    own: Overlay,
    inherited: Overlay,
    depth: nat,
    remote: seq<Name>,
    inheritedNames: seq<Name>,
    ownNames: seq<Name>)

  const NOTHING: Plain := Plain(map[], map[], 1, [], [], [])

  function All(d: Plain): Overlay {
    d.inherited + d.own
  }

  function Names(d: Plain): seq<Name> {
    d.remote + d.inheritedNames + d.ownNames
  }

  /** A named scope: inherited values of cached keys become its own. Past the limit it is only counted. */
  function Entered(d: Plain, cached: set<Key>, name: Name): Plain {
    if d.depth >= 1025 then d.(depth := d.depth + 1)
    else
      d.(own := (map k | k in d.inherited && k in cached :: d.inherited[k]) + d.own,
         depth := d.depth + 1,
         ownNames := d.ownNames + [name])
  }

  function Child(d: Option<Plain>): Plain {
    if d.None? then NOTHING else Plain(map[], d.value.own, 1, d.value.remote, d.value.ownNames, [])
  }

  /** What may cross: registered values of the registered type, not local-only. */
  function Crossing(m: RegistryMap, values: Overlay): Overlay {
    map k | k in values && k in m && m[k].typeId == values[k].tag && !m[k].localOnly :: values[k]
  }

  function LastNames(names: seq<Name>, maxLen: nat): seq<Name> {
    if maxLen == 0 || |names| <= maxLen then names else names[|names| - maxLen..]
  }

  function PlainOf(s: State): Plain {
    Plain(Flatten(LocalOverlays(s)), Flatten(FrozenOverlays(s)), s.depth, s.remoteChain, FrozenNames(s), LocalNames(s))
  }

  function PlainMade(env: Env, d: Option<Plain>, making: Making): Plain {
    match making
    case OfSnapshot(snap) => NOTHING.(own := Crossing(env.registry, snap.values), remote := snap.scopeChain)
    case ByFork => Child(d)
    case ByForkInScope(name) => Entered(Child(d), CachedKeys(env.registry), name)
    case ByCapture =>
      if d.None? then NOTHING
      else NOTHING.(own := Crossing(env.registry, All(d.value)), remote := LastNames(Names(d.value), env.maxChain))
    case Given(state) => PlainOf(state)
  }

  function PlainExec(env: Env, d: Plain, p: Program): Plain
    decreases p
  {
    if p.Done? then d else PlainExec(env, PlainDo(env, d, p.first), p.rest)
  }

  /** Only writes last, and those in a dead scope, which has no values of its own. */
  function PlainDo(env: Env, d: Plain, stmt: Statement): Plain
    decreases stmt
  {
    match stmt
    case SetVar(key, value) => d.(own := d.own[key := value])
    case MergeVars(source) => d.(own := d.own + Flatten(Visible(source)))
    case InScope(name, body) =>
      if d.depth >= 1025 then d.(own := PlainExec(env, d.(depth := d.depth + 1), body).own) else d
    case _ => d
  }

  function PlainLog(env: Env, d: Option<Plain>, p: Program): seq<Seen>
    decreases p
  {
    if p.Done? then []
    else
      PlainLogOf(env, d, p.first)
      + PlainLog(env, if d.None? then None else Some(PlainDo(env, d.value, p.first)), p.rest)
  }

  function PlainLogOf(env: Env, d: Option<Plain>, stmt: Statement): seq<Seen>
    decreases stmt
  {
    match stmt
    case Look(key, tag) =>
      var found := if d.None? then None else Get(All(d.value), key);
      [SeenValue(if found.Some? && found.value.tag == tag then found else None)]
    case LookChain => [SeenChain(if d.None? then [] else LastNames(Names(d.value), env.maxChain))]
    case InScope(name, body) =>
      PlainLog(env, if d.None? then None else Some(Entered(d.value, CachedKeys(env.registry), name)), body)
    case InAttached(making, body) => PlainLog(env, Some(PlainMade(env, d, making)), body)
    case Await(making, body) => PlainLog(env, Some(PlainMade(env, d, making)), body)
    case _ => []
  }

  // ---- A store stands for an environment ----

  ghost predicate Stands(s: State, d: Plain) {
    && Shape(s)
    && d.depth == s.depth && d.remote == s.remoteChain
    && d.inheritedNames == FrozenNames(s) && d.ownNames == LocalNames(s)
    && (forall k :: FirstMatch(LocalOverlays(s), k) == Get(d.own, k))
    && (forall k :: FirstMatch(FrozenOverlays(s), k) == Get(d.inherited, k))
  }

  ghost predicate BothStand(s: Option<State>, d: Option<Plain>) {
    if s.None? then d.None? else d.Some? && Stands(s.value, d.value)
  }

  lemma StandsSees(s: State, d: Plain)
    requires Stands(s, d)
    ensures forall k :: Lookup(s, k) == Get(All(d), k)
    ensures forall maxLen :: ScopeChain(s, maxLen) == LastNames(Names(d), maxLen)
  {
    forall k ensures Lookup(s, k) == Get(All(d), k) {
      Forking.LookupSplit(s, k);
    }
  }

  lemma NothingStands()
    ensures Stands(Scopes.New(), NOTHING)
  {
    forall k ensures FirstMatch(LocalOverlays(Scopes.New()), k) == None {
      assert FirstMatch(LocalOverlays(Scopes.New())[1..], k) == None;
    }
  }

  lemma FlatStands(values: Overlay, chain: seq<Name>)
    ensures Stands(FromValuesWithChain(values, chain), NOTHING.(own := values, remote := chain))
  {
    var s := FromValuesWithChain(values, chain);
    FlatView(values, chain);
    forall k ensures FirstMatch(LocalOverlays(s), k) == Get(values, k) {
      assert FirstMatch(LocalOverlays(s)[1..], k) == None;
    }
  }

  /** The values of a scope just entered. */
  lemma EnteredValues(s: State, d: Plain, cached: set<Key>, name: Name, key: Key)
    requires Stands(s, d) && !IsDead(s.depth + 1)
    ensures FirstMatch(LocalOverlays(Push(s, cached, Some(name))), key) == Get(Entered(d, cached, name).own, key)
  {
    var t := Push(s, cached, Some(name));
    Forking.PushOverlays(s, cached, Some(name));
    Forking.LookupSplit(s, key);
    assert LocalOverlays(t)[0] == CachedCopies(s, cached) && LocalOverlays(t)[1..] == LocalOverlays(s);
    assert FirstMatch(LocalOverlays(s), key) == Get(d.own, key);
    assert FirstMatch(FrozenOverlays(s), key) == Get(d.inherited, key);
  }

  lemma EnteredStands(s: State, d: Plain, cached: set<Key>, name: Name)
    requires Stands(s, d)
    ensures Stands(Push(s, cached, Some(name)), Entered(d, cached, name))
  {
    StepShape(s, cached, Enter(Some(name)));
    Forking.PushAppendsName(s, cached, Some(name));
    if !IsDead(s.depth + 1) {
      Forking.PushOverlays(s, cached, Some(name));
      forall k { EnteredValues(s, d, cached, name, k); }
    }
  }

  lemma ChildStands(s: Option<State>, d: Option<Plain>)
    requires BothStand(s, d)
    ensures Stands(Forked(s), Child(d))
  {
    if s.None? {
      NothingStands();
    } else {
      Forking.ForkSeesOwnScopes(s.value);
      forall k ensures FirstMatch(LocalOverlays(Fork(s.value)), k) == None {
        assert FirstMatch(LocalOverlays(Fork(s.value))[1..], k) == None;
      }
    }
  }

  lemma PlainOfStands(s: State)
    requires Shape(s)
    ensures Stands(s, PlainOf(s))
  {
    forall k ensures FirstMatch(LocalOverlays(s), k) == Get(PlainOf(s).own, k)
             ensures FirstMatch(FrozenOverlays(s), k) == Get(PlainOf(s).inherited, k)
    {
      FlattenLookup(LocalOverlays(s), k);
      FlattenLookup(FrozenOverlays(s), k);
    }
  }

  lemma CaptureCrosses(env: Env, s: State, d: Plain)
    requires Stands(s, d)
    ensures Rebuild(env.registry, Capture(env.registry, env.maxChain, s))
         == FromValuesWithChain(Crossing(env.registry, All(d)), LastNames(Names(d), env.maxChain))
  {
    var t := Rebuild(env.registry, Capture(env.registry, env.maxChain, s));
    StandsSees(s, d);
    RebuildLookups(env.registry, env.maxChain, s);
    forall k ensures Get(t.currentValues, k) == Get(Crossing(env.registry, All(d)), k) {
      assert Get(t.currentValues, k) == Projected(env.registry, k, Lookup(s, k));
    }
    SameLookups(t.currentValues, Crossing(env.registry, All(d)));
  }

  lemma MadeStands(env: Env, s: Option<State>, d: Option<Plain>, making: Making)
    requires BothStand(s, d) && (making.Given? ==> Shape(making.state))
    ensures Stands(Made(env, s, making), PlainMade(env, d, making))
  {
    match making
    case OfSnapshot(snap) =>
      var values := Crossing(env.registry, snap.values);
      FlatStands(values, snap.scopeChain);
      assert Rebuild(env.registry, snap) == FromValuesWithChain(values, snap.scopeChain);
    case ByFork => ChildStands(s, d);
    case ByForkInScope(name) =>
      ChildStands(s, d);
      EnteredStands(Forked(s), Child(d), CachedKeys(env.registry), name);
    case ByCapture =>
      if s.None? {
        FlatStands(map[], []);
        assert Rebuild(env.registry, Snapshot(map[], [])) == FromValuesWithChain(map[], []);
      } else {
        CaptureCrosses(env, s.value, d.value);
        FlatStands(Crossing(env.registry, All(d.value)), LastNames(Names(d.value), env.maxChain));
      }
    case Given(state) => PlainOfStands(state);
  }

  // ---- Programs see the same either way ----

  /** Stores handed to a program are well shaped, as all reachable ones are. */
  predicate Proper(p: Program)
    decreases p
  {
    p.Then? ==>
      && Proper(p.rest)
      && match p.first
         case InScope(_, body) => Proper(body)
         case InAttached(making, body) => (making.Given? ==> Shape(making.state)) && Proper(body)
         case Await(making, body) => (making.Given? ==> Shape(making.state)) && Proper(body)
         case _ => true
  }

  lemma WriteStands(s: State, d: Plain, values: Overlay)
    requires Stands(s, d)
    ensures Stands(s.(currentValues := s.currentValues + values), d.(own := d.own + values))
  {
    var t := s.(currentValues := s.currentValues + values);
    assert LocalOverlays(t)[1..] == LocalOverlays(s)[1..];
    forall k ensures FirstMatch(LocalOverlays(t), k) == Get(d.own + values, k) {
      assert LocalOverlays(t)[0] == s.currentValues + values && LocalOverlays(s)[0] == s.currentValues;
      assert FirstMatch(LocalOverlays(s), k) == Get(d.own, k);
    }
  }

  lemma {:induction false} ExecStands(env: Env, s: State, d: Plain, p: Program)
    requires Stands(s, d) && Proper(p)
    ensures Stands(Exec(env, s, p), PlainExec(env, d, p))
    decreases p
  {
    if p.Then? {
      DoStands(env, s, d, p.first, p);
      ExecStands(env, Do(env, s, p.first), PlainDo(env, d, p.first), p.rest);
    }
  }

  /** Past the limit a scope shares the values of the one it is entered from. */
  lemma DeadScope(env: Env, s: State, d: Plain, name: Name, body: Program)
    requires Stands(s, d) && IsDead(s.depth + 1)
    requires Stands(Exec(env, s.(depth := s.depth + 1), body), PlainExec(env, d.(depth := d.depth + 1), body))
    ensures Stands(Do(env, s, InScope(name, body)), PlainDo(env, d, InScope(name, body)))
  {
    var entered, own := s.(depth := s.depth + 1), PlainExec(env, d.(depth := d.depth + 1), body).own;
    var values := s.currentValues + OwnWrites(body, s.depth + 1);
    StepShape(s, {}, Enter(None));
    WellNested(env, entered, body);
    StatementWrites(env, s, InScope(name, body));
    assert Do(env, s, InScope(name, body)) == s.(currentValues := values);
    assert Exec(env, entered, body) == entered.(currentValues := values);
    assert LocalOverlays(s.(currentValues := values)) == LocalOverlays(entered.(currentValues := values));
    assert PlainDo(env, d, InScope(name, body)) == d.(own := own);
  }

  lemma {:induction false} DoStands(env: Env, s: State, d: Plain, stmt: Statement, p: Program)
    requires Stands(s, d) && p.Then? && p.first == stmt && Proper(p)
    ensures Stands(Do(env, s, stmt), PlainDo(env, d, stmt))
    decreases stmt
  {
    StatementWrites(env, s, stmt);
    match stmt
    case SetVar(key, value) =>
      WriteStands(s, d, map[key := value]);
      assert d.own[key := value] == d.own + map[key := value];
    case MergeVars(source) => WriteStands(s, d, Flatten(Visible(source)));
    case InScope(name, body) =>
      if IsDead(s.depth + 1) {
        EnteredStands(s, d, CachedKeys(env.registry), name);
        ExecStands(env, s.(depth := s.depth + 1), d.(depth := d.depth + 1), body);
        DeadScope(env, s, d, name, body);
      } else {
        assert s.currentValues + map[] == s.currentValues;
      }
    case _ => assert s.currentValues + map[] == s.currentValues;
  }

  /**
   Every program sees the same values and scope chains, look by look, whether it runs on stores that are
   pushed, popped, forked, captured and swapped through the thread's cell, or in plain environments.
   */
  lemma {:induction false} SeesThePlain(env: Env, s: Option<State>, d: Option<Plain>, p: Program)
    requires BothStand(s, d) && Proper(p)
    ensures Log(env, s, p) == PlainLog(env, d, p)
    decreases p
  {
    if p.Then? {
      StatementSeesThePlain(env, s, d, p.first, p);
      if s.None? {
        SeesThePlain(env, None, None, p.rest);
      } else {
        DoStands(env, s.value, d.value, p.first, p);
        SeesThePlain(env, Some(Do(env, s.value, p.first)), Some(PlainDo(env, d.value, p.first)), p.rest);
      }
    }
  }

  lemma {:induction false} StatementSeesThePlain(env: Env, s: Option<State>, d: Option<Plain>, stmt: Statement,
                                                 p: Program)
    requires BothStand(s, d) && p.Then? && p.first == stmt && Proper(p)
    ensures LogOf(env, s, stmt) == PlainLogOf(env, d, stmt)
    decreases stmt
  {
    if s.Some? { StandsSees(s.value, d.value); }
    match stmt
    case InScope(name, body) =>
      if s.None? {
        SeesThePlain(env, None, None, body);
      } else {
        var cached := CachedKeys(env.registry);
        EnteredStands(s.value, d.value, cached, name);
        SeesThePlain(env, Some(Push(s.value, cached, Some(name))), Some(Entered(d.value, cached, name)), body);
      }
    case InAttached(making, body) =>
      MadeStands(env, s, d, making);
      SeesThePlain(env, Some(Made(env, s, making)), Some(PlainMade(env, d, making)), body);
    case Await(making, body) =>
      MadeStands(env, s, d, making);
      SeesThePlain(env, Some(Made(env, s, making)), Some(PlainMade(env, d, making)), body);
    case _ =>
  }

  /** Run on the objects of a fresh thread, a program sees what it sees in the empty environment. */
  method RunFresh(env: Env, p: Program) returns (log: seq<Seen>)
    requires Proper(p)
    ensures log == PlainLog(env, Some(NOTHING), p)
  {
    var cell := new ThreadCell();
    NothingStands();
    SeesThePlain(env, Some(Scopes.New()), Some(NOTHING), p);
    log := RunProgram(env, cell, p);
  }
}
