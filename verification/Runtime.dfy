/**
 One thread's cell and what the crate's functions, guards and wrapped futures do to it
 (dcontext/src/lib.rs:102-247, scope.rs:26-73, attach.rs, future_ext.rs), and whole programs of them.
 Moving a store between cell, guard and wrapper moves the object; it is never copied.
 */
module Runtime {
  import opened Wrappers
  import opened Overlays
  import opened Scopes
  import opened ContextStores
  import opened Registry
  import opened Snapshots
  import Forking

  /** The registry and the chain limit in force. */
  datatype Env = Env(registry: RegistryMap, maxChain: nat)

  /** `CONTEXT` of one thread: empty only while a store is being changed. */
  class ThreadCell {
    var store: ContextStore?

    constructor ()
      ensures store != null && fresh(store) && store.View() == Scopes.New()
    {
      store := new ContextStore.New();
    }

    method Replace(next: ContextStore?) returns (prev: ContextStore?)
      modifies this
      ensures store == next && prev == old(store)
    {
      prev := store;
      store := next;
    }
  }

  /** The value of a store that may be absent. */
  function Held(store: ContextStore?): Option<State>
    reads store
  {
    if store == null then None else Some(store.View())
  }

  /** The depth to leave, or none for the guard of an empty cell. */
  datatype ScopeGuard = ScopeGuard(expectedDepth: Option<nat>)

  /** Enters a named scope; an empty cell gives a guard that does nothing. */
  method PushScope(env: Env, cell: ThreadCell, name: Name) returns (guard: ScopeGuard)
    modifies cell.store
    ensures cell.store == null ==> guard == ScopeGuard(None)
    ensures cell.store != null ==>
              cell.store.View() == Push(old(cell.store.View()), CachedKeys(env.registry), Some(name))
    ensures cell.store != null ==> guard == ScopeGuard(Some(cell.store.depth))
  {
    if cell.store == null {
      return ScopeGuard(None);
    }
    var depth := cell.store.PushScope(CachedKeys(env.registry), Some(name));
    return ScopeGuard(Some(depth));
  }

  method DropScopeGuard(cell: ThreadCell, guard: ScopeGuard)
    modifies cell.store
    ensures cell.store != null ==>
              cell.store.View() == if guard.expectedDepth.None? then old(cell.store.View())
                                   else Pop(old(cell.store.View()), guard.expectedDepth.value)
  {
    if cell.store != null && guard.expectedDepth.Some? {
      var _ := cell.store.PopScope(guard.expectedDepth.value);
    }
  }

  method SetContextVariable(cell: ThreadCell, key: Key, value: Value)
    modifies cell.store
    ensures cell.store != null ==> cell.store.View() == Set(old(cell.store.View()), key, value)
  {
    if cell.store != null {
      var _ := cell.store.SetValue(key, value);
    }
  }

  /** The visible value of a key, if it has the type asked for. */
  method GetContextVariable(cell: ThreadCell, key: Key, tag: TypeTag) returns (found: Option<Value>)
    ensures found.Some? <==>
            && cell.store != null
            && Lookup(cell.store.View(), key).Some?
            && Lookup(cell.store.View(), key).value.tag == tag
    ensures found.Some? ==> found == Lookup(cell.store.View(), key)
  {
    if cell.store == null {
      return None;
    }
    found := cell.store.GetValue(key);
    if found.Some? && found.value.tag != tag {
      found := None;
    }
  }

  method CurrentChain(env: Env, cell: ThreadCell) returns (chain: seq<Name>)
    ensures cell.store == null ==> chain == []
    ensures cell.store != null ==>
              chain == ScopeChain(cell.store.View(), env.maxChain)
              && IsEnd(chain, FullChain(cell.store.View()), env.maxChain)
  {
    if cell.store == null {
      return [];
    }
    chain := cell.store.GetScopeChain(env.maxChain);
  }

  /** Writes values one by one, in any order. */
  method WriteAll(store: ContextStore, values: Overlay)
    modifies store`currentValues
    ensures store.currentValues == old(store.currentValues) + values
  {
    ghost var before := store.currentValues;
    var pending := values.Keys;
    while pending != {}
      invariant pending <= values.Keys
      invariant store.currentValues == before + (values - pending)
      decreases |pending|
    {
      var key :| key in pending;
      WriteOne(before, values, pending, key);
      var _ := store.SetValue(key, values[key]);
      pending := pending - {key};
    }
    assert values - pending == values;
  }

  lemma WriteOne(before: Overlay, values: Overlay, pending: set<Key>, key: Key)
    requires key in pending && pending <= values.Keys
    ensures (before + (values - pending))[key := values[key]] == before + (values - (pending - {key}))
  {
  }

  /** Writes what `source` sees into the current scope. */
  method MergeWith(cell: ThreadCell, source: ContextStore)
    modifies cell.store
    ensures cell.store != null ==> cell.store.View() == Merge(old(cell.store.View()), old(source.View()))
  {
    var values := source.CollectValues();
    if cell.store != null {
      WriteAll(cell.store, values);
    }
  }

  method Clear(cell: ThreadCell)
    modifies cell
    ensures old(cell.store) == null ==> cell.store == null
    ensures old(cell.store) != null ==> cell.store != null && fresh(cell.store) && cell.store.View() == Scopes.New()
  {
    if cell.store != null {
      cell.store := new ContextStore.New();
    }
  }

  function Forked(s: Option<State>): State {
    if s.None? then Scopes.New() else Fork(s.value)
  }

  function Captured(env: Env, s: Option<State>): Snapshot {
    if s.None? then Snapshot(map[], []) else Capture(env.registry, env.maxChain, s.value)
  }

  method ForkOf(cell: ThreadCell) returns (child: ContextStore)
    ensures fresh(child)
    ensures child.View() == Forked(Held(cell.store))
  {
    if cell.store == null {
      child := new ContextStore.New();
    } else {
      child := cell.store.ForkChild();
    }
  }

  method CaptureFrom(env: Env, cell: ThreadCell) returns (snap: Snapshot)
    ensures snap == Captured(env, Held(cell.store))
  {
    if cell.store == null {
      return Snapshot(map[], []);
    }
    var values := cell.store.CollectValues();
    var chain := cell.store.GetScopeChain(env.maxChain);
    snap := Snapshot(map k | k in values && !IsLocalKey(env.registry, k) :: values[k], chain);
  }

  method StoreFrom(env: Env, snap: Snapshot) returns (store: ContextStore)
    ensures fresh(store) && store.View() == Rebuild(env.registry, snap)
  {
    var values := map k | k in snap.values
                          && IsValidValue(env.registry, k, snap.values[k])
                          && !IsLocalKey(env.registry, k) :: snap.values[k];
    store := new ContextStore.FromValuesWithChain(values, snap.scopeChain);
  }

  /** Holds the store that an attach replaced. */
  class AttachGuard {
    var prev: ContextStore?

    constructor (prev: ContextStore?)
      ensures this.prev == prev
    {
      this.prev := prev;
    }

    method Drop(cell: ThreadCell)
      modifies this, cell
      ensures cell.store == old(prev) && prev == null
    {
      cell.store := prev;
      prev := null;
    }
  }

  method AttachStore(cell: ThreadCell, store: ContextStore) returns (guard: AttachGuard)
    modifies cell
    ensures cell.store == store && fresh(guard) && guard.prev == old(cell.store)
  {
    var prev := cell.Replace(store);
    guard := new AttachGuard(prev);
  }

  // ---- Attaching with a scope, and the two orders of dropping its guards ----

  method AttachSnapshotWithScope(env: Env, cell: ThreadCell, snap: Snapshot, name: Name)
    returns (attach: AttachGuard, scope: ScopeGuard)
    modifies cell
    ensures cell.store != null && fresh(cell.store) && fresh(attach) && attach.prev == old(cell.store)
    ensures cell.store.View() == Push(Rebuild(env.registry, snap), CachedKeys(env.registry), Some(name))
    ensures scope == ScopeGuard(Some(2))
  {
    var store := StoreFrom(env, snap);
    attach := AttachStore(cell, store);
    scope := PushScope(env, cell, name);
  }

  /** The scope guard first: whatever stood in the cell before is back, untouched. */
  method DropScopeThenAttach(cell: ThreadCell, attach: AttachGuard, scope: ScopeGuard)
    requires cell.store != attach.prev
    modifies cell, cell.store, attach
    ensures cell.store == old(attach.prev) && Held(cell.store) == old(Held(attach.prev))
  {
    DropScopeGuard(cell, scope);
    attach.Drop(cell);
  }

  /** The order in which the returned pair drops its fields: the scope guard pops the store that was there before. */
  method DropPair(cell: ThreadCell, attach: AttachGuard, scope: ScopeGuard)
    requires scope == ScopeGuard(Some(2))
    modifies cell, attach, attach.prev
    ensures cell.store == old(attach.prev)
    ensures cell.store != null ==> cell.store.View() == Pop(old(Held(attach.prev)).value, 2)
  {
    attach.Drop(cell);
    DropScopeGuard(cell, scope);
  }

  /** Dropped as a pair, the guards give back the previous store exactly if it was at its root scope. */
  lemma PairRestores(prev: State)
    requires Shape(prev)
    ensures Pop(prev, 2) == prev <==> prev.depth == 1
  {
    PopWhileShape(prev, 2);
  }

  /** A store with one scope open, which the pair does not give back. */
  lemma PairDamages(cached: set<Key>)
    ensures var prev := Run(Scopes.New(), cached, [Enter(Some("request"))]);
            prev.currentName == Some("request") && Pop(prev, 2) == Scopes.New() != prev
  {
    var ops := [Enter(Some("request"))];
    assert ops[1..] == [];
    var prev := Push(Scopes.New(), cached, Some("request"));
    assert Run(Scopes.New(), cached, ops) == Run(prev, cached, ops[1..]) == prev;
    assert PopOnce(prev) == Scopes.New();
  }

  /** Run in a fresh thread: the scope is closed while its guard is still held. */
  method PairInsideScope(env: Env, snap: Snapshot, name: Name) returns (cell: ThreadCell, request: ScopeGuard)
    ensures request == ScopeGuard(Some(2))
    ensures fresh(cell) && cell.store != null && cell.store.View() == Scopes.New()
  {
    cell := new ThreadCell();
    request := PushScope(env, cell, "request");
    ghost var cached := CachedKeys(env.registry);
    assert cell.store.View() == Run(Scopes.New(), cached, [Enter(Some("request"))]) by {
      assert [Enter(Some("request"))][1..] == [];
    }
    var attach, scope := AttachSnapshotWithScope(env, cell, snap, name);
    DropPair(cell, attach, scope);
    PairDamages(cached);
  }

  // ---- Programs ----

  /** How a store is made, to be attached or to wrap a future with. */
  datatype Making = OfSnapshot(snap: Snapshot) | ByFork | ByCapture | ByForkInScope(name: Name) | Given(state: State)

  /** Code that uses the context in a well-nested way: blocks for guards, and awaits of wrapped futures. */
  datatype Program = Done | Then(first: Statement, rest: Program)

  datatype Statement =
    | Look(key: Key, tag: TypeTag)
    | LookChain
    | SetVar(key: Key, value: Value)
    | MergeVars(source: State)
    | InScope(name: Name, body: Program)
    | InAttached(making: Making, body: Program)
    | Await(making: Making, body: Program)

  /** The store made where the cell holds `s`. */
  function Made(env: Env, s: Option<State>, making: Making): State {
    match making
    case OfSnapshot(snap) => Rebuild(env.registry, snap)
    case ByFork => Forked(s)
    case ByCapture => Rebuild(env.registry, Captured(env, s))
    case ByForkInScope(name) => Push(Forked(s), CachedKeys(env.registry), Some(name))
    case Given(state) => state
  }

  /** What the parent's own scopes bind; nothing for an empty cell. */
  function OwnValue(s: Option<State>, key: Key): Option<Value> {
    if s.None? then None else FirstMatch(LocalOverlays(s.value), key)
  }

  /** The parent's remote prefix and the names of its own scopes. */
  function OwnChain(s: Option<State>): seq<Name> {
    if s.None? then [] else s.value.remoteChain + LocalNames(s.value)
  }

  /** What a reader of a store made where the cell holds `s` finds: its depth, its values and its scope chain. */
  ghost predicate StartsWith(env: Env, s: Option<State>, making: Making, t: State) {
    match making
    case OfSnapshot(snap) =>
      && t.depth == 1 && FullChain(t) == snap.scopeChain
      && forall k :: Lookup(t, k) == Projected(env.registry, k, Get(snap.values, k))
    case ByFork =>
      && t.depth == 1 && FullChain(t) == OwnChain(s)
      && forall k :: Lookup(t, k) == OwnValue(s, k)
    case ByForkInScope(name) =>
      && t.depth == 2 && t.currentName == Some(name) && FullChain(t) == OwnChain(s) + [name]
      && forall k :: Lookup(t, k) == OwnValue(s, k)
    case ByCapture =>
      && t.depth == 1 && IsEnd(FullChain(t), if s.None? then [] else FullChain(s.value), env.maxChain)
      && forall k :: Lookup(t, k) == if s.None? then None else Projected(env.registry, k, Lookup(s.value, k))
    case Given(state) => t == state
  }

  lemma ForkStarts(env: Env, s: Option<State>)
    requires s.Some? ==> Shape(s.value)
    ensures Shape(Forked(s)) && StartsWith(env, s, ByFork, Forked(s))
  {
    if s.Some? {
      Forking.ForkSeesOwnScopes(s.value);
    } else {
      FlatView(map[], []);
      forall k ensures Lookup(Scopes.New(), k) == None {
        assert FirstMatch(Visible(Scopes.New())[1..], k) == None;
      }
    }
  }

  lemma SnapshotStarts(env: Env, s: Option<State>, snap: Snapshot)
    ensures Shape(Rebuild(env.registry, snap)) && StartsWith(env, s, OfSnapshot(snap), Rebuild(env.registry, snap))
  {
    var t := Rebuild(env.registry, snap);
    FlatView(t.currentValues, t.remoteChain);
    assert t == FromValuesWithChain(t.currentValues, t.remoteChain);
    forall k ensures Lookup(t, k) == Projected(env.registry, k, Get(snap.values, k)) {
      assert Lookup(t, k) == Get(t.currentValues, k);
    }
  }

  lemma CaptureStarts(env: Env, s: Option<State>)
    ensures StartsWith(env, s, ByCapture, Made(env, s, ByCapture))
  {
    if s.None? {
      SnapshotStarts(env, s, Snapshot(map[], []));
    } else {
      RebuildLookups(env.registry, env.maxChain, s.value);
      RebuildChain(env.registry, env.maxChain, s.value);
      TruncateIsEnd(FullChain(s.value), env.maxChain);
    }
  }

  /** Each way of making a store gives one in which a reader finds just what it should. */
  lemma MadeStarts(env: Env, s: Option<State>, making: Making)
    requires s.Some? ==> Shape(s.value)
    ensures StartsWith(env, s, making, Made(env, s, making))
  {
    match making
    case OfSnapshot(snap) => SnapshotStarts(env, s, snap);
    case ByFork => ForkStarts(env, s);
    case ByForkInScope(name) =>
      ForkStarts(env, s);
      Forking.PushKeepsLookups(Forked(s), CachedKeys(env.registry), Some(name));
      Forking.PushAppendsName(Forked(s), CachedKeys(env.registry), Some(name));
    case ByCapture => CaptureStarts(env, s);
    case Given(state) =>
  }

  /** What is left of the store in the cell. */
  function Exec(env: Env, s: State, p: Program): State
    decreases p
  {
    if p.Done? then s else Exec(env, Do(env, s, p.first), p.rest)
  }

  function Do(env: Env, s: State, stmt: Statement): State
    decreases stmt
  {
    match stmt
    case SetVar(key, value) => Set(s, key, value)
    case MergeVars(source) => Merge(s, source)
    case InScope(name, body) =>
      var entered := Push(s, CachedKeys(env.registry), Some(name));
      Pop(Exec(env, entered, body), entered.depth)
    case _ => s
  }

  /** What is left in the cell: a program leaves an empty one empty. */
  function Left(env: Env, s: Option<State>, p: Program): Option<State> {
    if s.None? then None else Some(Exec(env, s.value, p))
  }

  function Found(s: Option<State>, key: Key, tag: TypeTag): Option<Value> {
    if s.None? || Lookup(s.value, key).None? || Lookup(s.value, key).value.tag != tag then None
    else Lookup(s.value, key)
  }

  function ChainOf(env: Env, s: Option<State>): seq<Name> {
    if s.None? then [] else ScopeChain(s.value, env.maxChain)
  }

  /** What one look at the context finds. */
  datatype Seen = SeenValue(found: Option<Value>) | SeenChain(chain: seq<Name>)

  /** Everything a program sees, in order. */
  function Log(env: Env, s: Option<State>, p: Program): seq<Seen>
    decreases p
  {
    if p.Done? then []
    else LogOf(env, s, p.first) + Log(env, if s.None? then None else Some(Do(env, s.value, p.first)), p.rest)
  }

  function LogOf(env: Env, s: Option<State>, stmt: Statement): seq<Seen>
    decreases stmt
  {
    match stmt
    case Look(key, tag) => [SeenValue(Found(s, key, tag))]
    case LookChain => [SeenChain(ChainOf(env, s))]
    case InScope(name, body) =>
      Log(env, if s.None? then None else Some(Push(s.value, CachedKeys(env.registry), Some(name))), body)
    case InAttached(making, body) => Log(env, Some(Made(env, s, making)), body)
    case Await(making, body) => Log(env, Some(Made(env, s, making)), body)
    case _ => []
  }

  /** A future wrapped with a store: polling swaps the store in, runs the future, and swaps it out. */
  class WithContext {
    var store: ContextStore?

    constructor (store: ContextStore?)
      ensures this.store == store
    {
      this.store := store;
    }

    /** Swaps the store in. */
    method Begin(cell: ThreadCell) returns (prev: ContextStore?)
      modifies this, cell
      ensures cell.store == old(store) && store == null && prev == old(cell.store)
    {
      prev := cell.Replace(store);
      store := null;
    }

    /** Swaps it out. */
    method End(cell: ThreadCell, prev: ContextStore?)
      modifies this, cell
      ensures cell.store == prev && store == old(cell.store)
    {
      store := cell.Replace(prev);
    }

    /** The future runs on the wrapper's store and the cell gets back the very store it had, untouched. */
    method Poll(env: Env, cell: ThreadCell, inner: Program) returns (log: seq<Seen>)
      requires store == null || store != cell.store
      modifies this, cell, store
      ensures cell.store == old(cell.store) && Held(cell.store) == old(Held(cell.store))
      ensures store == old(store) && Held(store) == Left(env, old(Held(store)), inner)
      ensures log == Log(env, old(Held(store)), inner)
      decreases inner, 1
    {
      var prev := Begin(cell);
      log := RunProgram(env, cell, inner);
      End(cell, prev);
    }
  }

  method MakeStore(env: Env, cell: ThreadCell, making: Making) returns (store: ContextStore)
    ensures fresh(store) && store.View() == Made(env, Held(cell.store), making)
  {
    match making {
      case OfSnapshot(snap) =>
        store := StoreFrom(env, snap);
      case ByFork =>
        store := ForkOf(cell);
      case ByCapture =>
        var snap := CaptureFrom(env, cell);
        store := StoreFrom(env, snap);
      case ByForkInScope(name) =>
        store := ForkOf(cell);
        var _ := store.PushScope(CachedKeys(env.registry), Some(name));
      case Given(state) =>
        store := StoreOf(state);
    }
  }

  method Wrap(env: Env, cell: ThreadCell, making: Making) returns (w: WithContext)
    ensures fresh(w) && w.store != null && fresh(w.store)
    ensures w.store.View() == Made(env, Held(cell.store), making)
    ensures (cell.store != null ==> Shape(cell.store.View())) ==>
              StartsWith(env, Held(cell.store), making, w.store.View())
  {
    var store := MakeStore(env, cell, making);
    w := new WithContext(store);
    if cell.store != null ==> Shape(cell.store.View()) {
      MadeStarts(env, Held(cell.store), making);
    }
  }

  /** Runs a program on the store in the cell, if there is one. */
  method RunProgram(env: Env, cell: ThreadCell, p: Program) returns (log: seq<Seen>)
    modifies cell, cell.store
    ensures cell.store == old(cell.store) && Held(cell.store) == Left(env, old(Held(cell.store)), p)
    ensures log == Log(env, old(Held(cell.store)), p)
    decreases p, 0
  {
    match p {
      case Done =>
        log := [];
      case Then(first, rest) =>
        log := RunStatement(env, cell, first);
        var more := RunProgram(env, cell, rest);
        log := log + more;
    }
  }

  method RunStatement(env: Env, cell: ThreadCell, stmt: Statement) returns (log: seq<Seen>)
    modifies cell, cell.store
    ensures cell.store == old(cell.store)
    ensures cell.store != null ==> cell.store.View() == Do(env, old(Held(cell.store)).value, stmt)
    ensures log == LogOf(env, old(Held(cell.store)), stmt)
    decreases stmt, 0
  {
    log := [];
    match stmt {
      case Look(key, tag) =>
        var found := GetContextVariable(cell, key, tag);
        log := [SeenValue(found)];
      case LookChain =>
        var chain := CurrentChain(env, cell);
        log := [SeenChain(chain)];
      case SetVar(key, value) =>
        SetContextVariable(cell, key, value);
      case MergeVars(source) =>
        var from := StoreOf(source);
        MergeWith(cell, from);
      case InScope(name, body) =>
        var guard := PushScope(env, cell, name);
        log := RunProgram(env, cell, body);
        DropScopeGuard(cell, guard);
      case InAttached(making, body) =>
        var store := MakeStore(env, cell, making);
        var guard := AttachStore(cell, store);
        log := RunProgram(env, cell, body);
        guard.Drop(cell);
      case Await(making, body) =>
        var future := Wrap(env, cell, making);
        log := future.Poll(env, cell, body);
    }
  }

  /** A store of the given value, as another task's might be. */
  method StoreOf(s: State) returns (store: ContextStore)
    ensures fresh(store) && store.View() == s
  {
    store := new ContextStore.New();
    store.scopeChain, store.currentValues := s.scopeChain, s.currentValues;
    store.currentName, store.depth := s.currentName, s.depth;
    store.remoteChain, store.remoteChainBaseDepth := s.remoteChain, s.remoteChainBaseDepth;
    store.frozenParent, store.scopeBarrier := s.frozenParent, s.scopeBarrier;
  }

  // ---- What programs leave behind ----

  /** The writes a program makes at its own level, dead scopes counting as the level they share. */
  function OwnWrites(p: Program, depth: nat): Overlay
    decreases p
  {
    if p.Done? then map[] else WritesOf(p.first, depth) + OwnWrites(p.rest, depth)
  }

  function WritesOf(stmt: Statement, depth: nat): Overlay
    decreases stmt
  {
    match stmt
    case SetVar(key, value) => map[key := value]
    case MergeVars(source) => Flatten(Visible(source))
    case InScope(_, body) => if IsDead(depth + 1) then OwnWrites(body, depth + 1) else map[]
    case _ => map[]
  }

  /**
   A well-nested program leaves the store it ran on as it was but for its own writes: depth, chain,
   names, remote prefix and frozen parent are back, and no write made in a scope it entered, in a
   store it attached or in a future it awaited remains.
   */
  lemma {:induction false} WellNested(env: Env, s: State, p: Program)
    requires Shape(s)
    ensures Exec(env, s, p) == s.(currentValues := s.currentValues + OwnWrites(p, s.depth))
    decreases p
  {
    if p.Done? {
      assert s.currentValues + map[] == s.currentValues;
    } else {
      var written, rest := WritesOf(p.first, s.depth), OwnWrites(p.rest, s.depth);
      StatementWrites(env, s, p.first);
      WellNested(env, s.(currentValues := s.currentValues + written), p.rest);
      OverlayAssociative(s.currentValues, written, rest);
    }
  }

  lemma {:induction false} StatementWrites(env: Env, s: State, stmt: Statement)
    requires Shape(s)
    ensures Do(env, s, stmt) == s.(currentValues := s.currentValues + WritesOf(stmt, s.depth))
    decreases stmt
  {
    assert s.currentValues + map[] == s.currentValues;
    match stmt
    case SetVar(key, value) => assert s.currentValues[key := value] == s.currentValues + map[key := value];
    case InScope(name, body) =>
      var cached := CachedKeys(env.registry);
      var entered := Push(s, cached, Some(name));
      StepShape(s, cached, Enter(Some(name)));
      WellNested(env, entered, body);
      LeaveWritten(s, cached, Some(name), entered.currentValues + OwnWrites(body, s.depth + 1));
    case _ =>
  }

  lemma OverlayAssociative(a: Overlay, b: Overlay, c: Overlay)
    ensures (a + b) + c == a + (b + c)
  {
  }

  /** Leaving a scope just after writing in it. */
  lemma LeaveWritten(s: State, cached: set<Key>, name: Option<Name>, values: Overlay)
    requires Shape(s)
    ensures Pop(Push(s, cached, name).(currentValues := values), s.depth + 1)
         == if IsDead(s.depth + 1) then s.(currentValues := values) else s
  {
    var left := Push(s, cached, name).(currentValues := values);
    StepShape(s, cached, Enter(name));
    assert PopOnce(left) == if IsDead(s.depth + 1) then s.(currentValues := values) else s;
    assert PopWhile(left, s.depth + 1) == PopWhile(PopOnce(left), s.depth + 1);
  }
}
