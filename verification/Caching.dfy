/**
 Cached keys are a shortcut: copying their effective values into every new scope
 (dcontext/src/store.rs:148-173) is not observable, up to a fork of a fork.
 */
module Caching {
  import opened Wrappers
  import opened Overlays
  import opened Scopes
  import opened Forking

  // ---- The relation between a store with cached keys and one without ----

  /** What copying can add to a level's lookups: a cached key's inherited value, above the root level. */
  function Copied(plain: seq<Overlay>, frozen: seq<Overlay>, cached: set<Key>, key: Key): Option<Value> {
    if |plain| > 1 && key in cached then FirstMatch(frozen, key) else None
  }

  ghost predicate LevelRelated(caching: seq<Overlay>, plain: seq<Overlay>, frozen: seq<Overlay>, cached: set<Key>) {
    forall k :: FirstMatch(caching, k) == OrElse(FirstMatch(plain, k), Copied(plain, frozen, cached, k))
  }

  /** Level by level, so also for every level that pops can uncover. */
  ghost predicate StacksRelated(caching: seq<Overlay>, plain: seq<Overlay>, frozen: seq<Overlay>, cached: set<Key>) {
    |caching| == |plain| &&
    (plain != [] ==>
      LevelRelated(caching, plain, frozen, cached) && StacksRelated(caching[1..], plain[1..], frozen, cached))
  }

  /** A chain without its values. */
  function EraseChain(chain: Option<ScopeNode>): Option<ScopeNode> {
    if chain.None? then None
    else Some(chain.value.(values := map[], parent := EraseChain(chain.value.parent)))
  }

  function Erase(s: State): State {
    s.(scopeChain := EraseChain(s.scopeChain), currentValues := map[], frozenParent := EraseChain(s.frozenParent))
  }

  ghost predicate Related(a: State, b: State, cached: set<Key>) {
    && Shape(a) && Shape(b) && Erase(a) == Erase(b)
    && (forall k :: FirstMatch(FrozenOverlays(a), k) == FirstMatch(FrozenOverlays(b), k))
    && StacksRelated(LocalOverlays(a), LocalOverlays(b), FrozenOverlays(b), cached)
  }

  lemma RelatedAgree(a: State, b: State, cached: set<Key>)
    requires Related(a, b, cached)
    ensures forall k :: Lookup(a, k) == Lookup(b, k)
    ensures FullChain(a) == FullChain(b)
  {
    forall k ensures Lookup(a, k) == Lookup(b, k) {
      LookupSplit(a, k);
      LookupSplit(b, k);
      assert FirstMatch(LocalOverlays(a), k)
          == OrElse(FirstMatch(LocalOverlays(b), k), Copied(LocalOverlays(b), FrozenOverlays(b), cached, k));
    }
    ErasedNames(a.scopeChain, b.scopeChain, 0, a.remoteChainBaseDepth);
    ErasedNames(a.frozenParent, b.frozenParent, NO_FLOOR, NO_FLOOR);
  }

  lemma {:induction false} ErasedNames(a: Option<ScopeNode>, b: Option<ScopeNode>, floor: int, base: int)
    requires EraseChain(a) == EraseChain(b)
    ensures ChainNames(a, floor, base) == ChainNames(b, floor, base)
    decreases a
  {
    if a.Some? {
      ErasedNames(a.value.parent, b.value.parent, floor, base);
    }
  }

  // ---- Every step keeps it ----

  /** One more level, holding the copies on one side and nothing on the other. */
  lemma CopiesRelated(a: State, b: State, cached: set<Key>)
    requires Related(a, b, cached)
    ensures LevelRelated([CachedCopies(a, cached)] + LocalOverlays(a), [CachedCopies(b, {})] + LocalOverlays(b),
                         FrozenOverlays(b), cached)
  {
    var la, lb, f := LocalOverlays(a), LocalOverlays(b), FrozenOverlays(b);
    var la', lb' := [CachedCopies(a, cached)] + la, [CachedCopies(b, {})] + lb;
    assert la'[1..] == la && lb'[1..] == lb;
    RelatedAgree(a, b, cached);
    forall k ensures FirstMatch(la', k) == OrElse(FirstMatch(lb', k), Copied(lb', f, cached, k)) {
      assert FirstMatch(la, k) == OrElse(FirstMatch(lb, k), Copied(lb, f, cached, k));
      LookupSplit(b, k);
    }
  }

  lemma PushRelated(a: State, b: State, cached: set<Key>, name: Option<Name>)
    requires Related(a, b, cached)
    ensures Related(Push(a, cached, name), Push(b, {}, name), cached)
  {
    var a', b' := Push(a, cached, name), Push(b, {}, name);
    StepShape(a, cached, Enter(name));
    StepShape(b, {}, Enter(name));
    if !IsDead(a.depth + 1) {
      PushOverlays(a, cached, name);
      PushOverlays(b, {}, name);
      CopiesRelated(a, b, cached);
      assert LocalOverlays(a')[1..] == LocalOverlays(a) && LocalOverlays(b')[1..] == LocalOverlays(b);
    }
  }

  /** Both stores write `values` into their current scope. */
  lemma WriteRelated(a: State, b: State, cached: set<Key>, values: Overlay)
    requires Related(a, b, cached)
    ensures Related(a.(currentValues := a.currentValues + values), b.(currentValues := b.currentValues + values),
                    cached)
  {
    var la, lb, f := LocalOverlays(a), LocalOverlays(b), FrozenOverlays(b);
    var la' := LocalOverlays(a.(currentValues := a.currentValues + values));
    var lb' := LocalOverlays(b.(currentValues := b.currentValues + values));
    assert la'[1..] == la[1..] && lb'[1..] == lb[1..];
    forall k ensures FirstMatch(la', k) == OrElse(FirstMatch(lb', k), Copied(lb', f, cached, k)) {
      assert FirstMatch(la, k) == OrElse(FirstMatch(lb, k), Copied(lb, f, cached, k));
      if k in values {
        assert la'[0][k] == values[k] == lb'[0][k];
      }
    }
  }

  lemma {:induction false} PopRelated(a: State, b: State, cached: set<Key>, expected: nat)
    requires Related(a, b, cached) && expected >= 2
    ensures Related(PopWhile(a, expected), PopWhile(b, expected), cached)
    decreases a.depth
  {
    if a.depth >= expected {
      if !IsDead(a.depth) {
        PopOverlays(a);
        PopOverlays(b);
      }
      PopRelated(PopOnce(a), PopOnce(b), cached, expected);
    }
  }

  lemma ForkRelated(a: State, b: State, cached: set<Key>)
    requires Related(a, b, cached) && a.frozenParent.None?
    ensures Related(Fork(a), Fork(b), cached)
  {
    ForkSeesOwnScopes(a);
    ForkSeesOwnScopes(b);
    forall k ensures FirstMatch(FrozenOverlays(Fork(a)), k) == FirstMatch(FrozenOverlays(Fork(b)), k) {
      assert FirstMatch(LocalOverlays(a), k)
          == OrElse(FirstMatch(LocalOverlays(b), k), Copied(LocalOverlays(b), FrozenOverlays(b), cached, k));
    }
  }

  lemma StepRelated(a: State, b: State, cached: set<Key>, op: Op)
    requires Related(a, b, cached) && (op.ForkOff? ==> b.frozenParent.None?)
    ensures Related(Step(a, cached, op), Step(b, {}, op), cached)
  {
    match op
    case Enter(name) => PushRelated(a, b, cached, name);
    case Leave(expected) => if expected >= 2 { PopRelated(a, b, cached, expected); }
    case Write(key, value) =>
      WriteRelated(a, b, cached, map[key := value]);
      assert forall m: Overlay :: m[key := value] == m + map[key := value];
    case MergeFrom(source) => WriteRelated(a, b, cached, Flatten(Visible(source)));
    case ForkOff => ForkRelated(a, b, cached);
    case AttachNew(_, _) =>
  }

  /** No store that came from a fork is forked again before an attach replaces it. */
  predicate SingleForks(ops: seq<Op>, forked: bool)
    decreases ops
  {
    ops != [] ==>
      match ops[0]
      case ForkOff => !forked && SingleForks(ops[1..], true)
      case AttachNew(_, _) => SingleForks(ops[1..], false)
      case _ => SingleForks(ops[1..], forked)
  }

  lemma {:induction false} RunRelated(a: State, b: State, cached: set<Key>, ops: seq<Op>)
    requires Related(a, b, cached) && SingleForks(ops, b.frozenParent.Some?)
    ensures Related(Run(a, cached, ops), Run(b, {}, ops), cached)
    decreases ops
  {
    if ops != [] {
      var op := ops[0];
      StepRelated(a, b, cached, op);
      if op.Leave? { PopKeepsFrozen(b, op.expected); }
      RunRelated(Step(a, cached, op), Step(b, {}, op), cached, ops[1..]);
    }
  }

  lemma {:induction false} PopKeepsFrozen(s: State, expected: nat)
    ensures Pop(s, expected).frozenParent == s.frozenParent
    ensures PopWhile(s, expected).frozenParent == s.frozenParent
    decreases s.scopeChain, s.depth
  {
    if s.depth >= expected && CanPop(s) {
      PopKeepsFrozen(PopOnce(s), expected);
    }
  }

  lemma NewRelated(cached: set<Key>)
    ensures Related(New(), New(), cached)
  {
    assert LocalOverlays(New())[1..] == [];
  }

  // ---- Main results ----

  /**
   Driven by the same operations, a store with any cached keys and one with none cannot be told apart
   by any lookup or scope chain, as long as no forked store is forked again.
   */
  lemma CacheTransparency(cached: set<Key>, ops: seq<Op>)
    requires SingleForks(ops, false)
    ensures var a, b := Run(New(), cached, ops), Run(New(), {}, ops);
            && (forall k :: Lookup(a, k) == Lookup(b, k))
            && (forall maxLen :: ScopeChain(a, maxLen) == ScopeChain(b, maxLen))
  {
    NewRelated(cached);
    RunRelated(New(), New(), cached, ops);
    RelatedAgree(Run(New(), cached, ops), Run(New(), {}, ops), cached);
  }

  /**
   Forking once more shows the difference exactly if a real scope has been entered since the last
   fork and some cached key is bound in the frozen ancestry but in none of the plain store's own scopes.
   */
  lemma ForkRevealsCaching(cached: set<Key>, ops: seq<Op>)
    requires SingleForks(ops, false)
    ensures var a, b := Run(New(), cached, ops), Run(New(), {}, ops);
            (forall k :: Lookup(Fork(a), k) == Lookup(Fork(b), k))
            <==> (b.depth == 1 || forall k :: k in cached && Binds(FrozenOverlays(b), k) ==> Binds(LocalOverlays(b), k))
  {
    var a, b := Run(New(), cached, ops), Run(New(), {}, ops);
    NewRelated(cached);
    RunRelated(New(), New(), cached, ops);
    ReachableStores({}, ops);
    ForkSeesOwnScopes(a);
    ForkSeesOwnScopes(b);
    forall k ensures Lookup(Fork(a), k) == Lookup(Fork(b), k)
                <==> (b.depth == 1 || (k in cached && Binds(FrozenOverlays(b), k) ==> Binds(LocalOverlays(b), k)))
    {
      assert FirstMatch(LocalOverlays(a), k)
          == OrElse(FirstMatch(LocalOverlays(b), k), Copied(LocalOverlays(b), FrozenOverlays(b), cached, k));
    }
  }

  /** A fork of a store that binds just one key. */
  function ForkOfOne(key: Key, value: Value): State {
    Fork(Set(New(), key, value))
  }

  lemma ForkOfOneRun(cached: set<Key>, key: Key, value: Value)
    ensures Run(New(), cached, [Write(key, value), ForkOff]) == ForkOfOne(key, value)
    ensures Shape(ForkOfOne(key, value)) && Lookup(ForkOfOne(key, value), key) == Some(value)
  {
    var root, ops := Set(New(), key, value), [Write(key, value), ForkOff];
    assert ops[1..] == [ForkOff] && ops[1..][1..] == [];
    assert Run(root, cached, ops[1..]) == Run(Fork(root), cached, ops[1..][1..]);
    ForkSeesOwnScopes(root);
    assert LocalOverlays(root)[0] == root.currentValues;
  }

  /** A fork of a scope of that fork sees the key exactly if it was copied into the scope. */
  lemma ForkOfScope(cached: set<Key>, key: Key, value: Value)
    ensures Lookup(Fork(Push(ForkOfOne(key, value), cached, None)), key) == if key in cached then Some(value) else None
  {
    var s := ForkOfOne(key, value);
    var t := Push(s, cached, None);
    ForkOfOneRun(cached, key, value);
    StepShape(s, cached, Enter(None));
    ForkSeesOwnScopes(t);
    PushOverlays(s, cached, None);
    assert LocalOverlays(t)[1..] == LocalOverlays(s) == [map[]];
    assert LocalOverlays(s)[1..] == [];
    assert FirstMatch(LocalOverlays(s), key) == None;
  }

  /** A run after which a further fork sees the key if it is cached, and does not otherwise. */
  lemma ForkShowsCache(key: Key, value: Value)
    ensures var ops := [Write(key, value), ForkOff, Enter(None)];
            && SingleForks(ops, false)
            && Lookup(Fork(Run(New(), {key}, ops)), key) == Some(value)
            && Lookup(Fork(Run(New(), {}, ops)), key) == None
  {
    var ops := [Write(key, value), ForkOff, Enter(None)];
    assert ops[1..][0] == ForkOff && ops[1..][1..] == [Enter(None)] && [Enter(None)][1..] == [];
    forall cached ensures Run(New(), cached, ops) == Push(ForkOfOne(key, value), cached, None) {
      var root := Set(New(), key, value);
      assert Run(root, cached, ops[1..]) == Run(Fork(root), cached, [Enter(None)]);
    }
    ForkOfScope({key}, key, value);
    ForkOfScope({}, key, value);
  }

  // ---- Where a cached key is found ----

  /** Every level above the root binds every cached key that is bound at or below it. */
  ghost predicate CopiesComplete(local: seq<Overlay>, frozen: seq<Overlay>, cached: set<Key>) {
    |local| > 1 ==>
      && (forall k :: k in cached && Binds(local + frozen, k) ==> k in local[0])
      && CopiesComplete(local[1..], frozen, cached)
  }

  lemma {:induction false} PopComplete(s: State, cached: set<Key>, expected: nat)
    requires Shape(s) && expected >= 2 && CopiesComplete(LocalOverlays(s), FrozenOverlays(s), cached)
    ensures var t := PopWhile(s, expected); CopiesComplete(LocalOverlays(t), FrozenOverlays(t), cached)
    decreases s.depth
  {
    if s.depth >= expected {
      if !IsDead(s.depth) { PopOverlays(s); }
      PopComplete(PopOnce(s), cached, expected);
    }
  }

  lemma WriteComplete(s: State, cached: set<Key>, values: Overlay)
    requires Shape(s) && CopiesComplete(LocalOverlays(s), FrozenOverlays(s), cached)
    ensures var t := s.(currentValues := s.currentValues + values);
            CopiesComplete(LocalOverlays(t), FrozenOverlays(t), cached)
  {
    var t := s.(currentValues := s.currentValues + values);
    var l, l' := LocalOverlays(s), LocalOverlays(t);
    assert l'[1..] == l[1..];
    forall k | k in cached && |l| > 1 && Binds(l' + FrozenOverlays(s), k) ensures k in l'[0] {
      if k !in values {
        LookupSplit(s, k);
        LookupSplit(t, k);
        assert Binds(l + FrozenOverlays(s), k);
      }
    }
  }

  lemma StepComplete(s: State, cached: set<Key>, op: Op)
    requires Shape(s) && CopiesComplete(LocalOverlays(s), FrozenOverlays(s), cached)
    ensures var t := Step(s, cached, op); CopiesComplete(LocalOverlays(t), FrozenOverlays(t), cached)
  {
    match op
    case Enter(name) =>
      if !IsDead(s.depth + 1) {
        var t := Push(s, cached, name);
        PushOverlays(s, cached, name);
        PushKeepsLookups(s, cached, name);
        assert LocalOverlays(t)[1..] == LocalOverlays(s);
        assert forall k :: Binds(LocalOverlays(t) + FrozenOverlays(t), k) <==> Lookup(s, k).Some?;
      }
    case Leave(expected) => if expected >= 2 { PopComplete(s, cached, expected); }
    case Write(key, value) =>
      WriteComplete(s, cached, map[key := value]);
      assert s.currentValues[key := value] == s.currentValues + map[key := value];
    case MergeFrom(source) => WriteComplete(s, cached, Flatten(Visible(source)));
    case ForkOff =>
    case AttachNew(_, _) =>
  }

  lemma {:induction false} RunComplete(s: State, cached: set<Key>, ops: seq<Op>)
    requires Shape(s) && CopiesComplete(LocalOverlays(s), FrozenOverlays(s), cached)
    ensures var t := Run(s, cached, ops); CopiesComplete(LocalOverlays(t), FrozenOverlays(t), cached)
    decreases ops
  {
    if ops != [] {
      StepShape(s, cached, ops[0]);
      StepComplete(s, cached, ops[0]);
      RunComplete(Step(s, cached, ops[0]), cached, ops[1..]);
    }
  }

  /**
   After any run, forks of forks included, every cached key that has a value is found in the current
   scope's own map, exactly unless the store is at a fork's root and inherits such a key without binding it.
   */
  lemma CachedKeysAreLocal(cached: set<Key>, ops: seq<Op>)
    ensures var s := Run(New(), cached, ops);
            (forall k :: k in cached && Lookup(s, k).Some? ==> k in s.currentValues)
            <==> (s.depth > 1 || forall k :: k in cached && Binds(FrozenOverlays(s), k) ==> k in s.currentValues)
  {
    var s := Run(New(), cached, ops);
    assert LocalOverlays(New())[1..] == [];
    RunComplete(New(), cached, ops);
    ReachableStores(cached, ops);
    forall k ensures Lookup(s, k) == OrElse(FirstMatch(LocalOverlays(s), k), FirstMatch(FrozenOverlays(s), k)) {
      LookupSplit(s, k);
    }
    if s.depth > 1 {
      assert forall k :: Binds(LocalOverlays(s) + FrozenOverlays(s), k) <==> Lookup(s, k).Some?;
    } else {
      assert LocalOverlays(s)[1..] == [];
    }
  }

  /** A cached key with a value that is not in the current map: the fork's root inherits it. */
  lemma CachedKeyNotLocal(key: Key, value: Value)
    ensures var s := Run(New(), {key}, [Write(key, value), ForkOff]);
            Lookup(s, key) == Some(value) && key !in s.currentValues
  {
    ForkOfOneRun({key}, key, value);
  }
}
