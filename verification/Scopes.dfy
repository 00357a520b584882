/**
 The value of a context store, and what each store operation does to it, as functions.
 `ContextStores` proves the imperative store against these; the properties are stated here and in
 the modules that import this one.
 */
module Scopes {
  import opened Wrappers
  import opened Overlays

  const MAX_SCOPE_DEPTH: nat := 1024

  /** A frozen scope; `parent` is the next frozen scope outwards. */
  datatype ScopeNode = ScopeNode(
    name: Option<Name>,
    values: Overlay,
    parent: Option<ScopeNode>,
    depth: nat,
    remoteChain: seq<Name>,
    remoteChainBaseDepth: nat,
    savedScopeBarrier: Option<nat>)

  datatype State = State(
    scopeChain: Option<ScopeNode>,
    currentValues: Overlay,
    currentName: Option<Name>,
    depth: nat,
    remoteChain: seq<Name>,
    remoteChainBaseDepth: nat,
    frozenParent: Option<ScopeNode>,
    scopeBarrier: Option<nat>)

  // ---- What a reader of a store sees ----

  /** The value maps of a chain, innermost first, down to the first node at depth `floor` or below. */
  function ChainOverlays(chain: Option<ScopeNode>, floor: int): seq<Overlay> {
    if chain.None? || chain.value.depth <= floor then []
    else [chain.value.values] + ChainOverlays(chain.value.parent, floor)
  }

  /** The names in a chain, outermost first, of the nodes above `floor` that lie deeper than `base`. */
  function ChainNames(chain: Option<ScopeNode>, floor: int, base: int): seq<Name> {
    if chain.None? || chain.value.depth <= floor then []
    else ChainNames(chain.value.parent, floor, base) + Named(chain.value.name, chain.value.depth, base)
  }

  function Named(name: Option<Name>, depth: nat, base: int): seq<Name> {
    if name.Some? && depth > base then [name.value] else []
  }

  function Floor(s: State): nat {
    if s.scopeBarrier.Some? then s.scopeBarrier.value else 0
  }

  /** No node has a depth at or below this, so a walk with it goes to the end. */
  const NO_FLOOR: int := -1

  function LocalOverlays(s: State): seq<Overlay> {
    [s.currentValues] + ChainOverlays(s.scopeChain, Floor(s))
  }

  function FrozenOverlays(s: State): seq<Overlay> {
    if s.scopeBarrier.None? then ChainOverlays(s.frozenParent, NO_FLOOR) else []
  }

  function FrozenNames(s: State): seq<Name> {
    if s.scopeBarrier.None? then ChainNames(s.frozenParent, NO_FLOOR, NO_FLOOR) else []
  }

  function LocalNames(s: State): seq<Name> {
    ChainNames(s.scopeChain, Floor(s), s.remoteChainBaseDepth) + Named(s.currentName, s.depth, s.remoteChainBaseDepth)
  }

  /** The overlay stack of docs/design.md that the store stands for. */
  function Visible(s: State): seq<Overlay> {
    LocalOverlays(s) + FrozenOverlays(s)
  }

  function Lookup(s: State, key: Key): Option<Value> {
    FirstMatch(Visible(s), key)
  }

  /** The last `maxLen` entries; all of them if `maxLen` is 0. */
  function Truncate(names: seq<Name>, maxLen: nat): seq<Name> {
    if maxLen > 0 && |names| > maxLen then names[|names| - maxLen..] else names
  }

  /** `chain` is the end of `names`: its last `maxLen` entries, or all of it if it has no more or `maxLen` is 0. */
  predicate IsEnd(chain: seq<Name>, names: seq<Name>, maxLen: nat) {
    && |chain| == (if maxLen == 0 || |names| <= maxLen then |names| else maxLen)
    && forall i :: 0 <= i < |chain| ==> chain[i] == names[|names| - |chain| + i]
  }

  lemma TruncateIsEnd(names: seq<Name>, maxLen: nat)
    ensures IsEnd(Truncate(names, maxLen), names, maxLen)
  {
  }

  function FullChain(s: State): seq<Name> {
    s.remoteChain + FrozenNames(s) + LocalNames(s)
  }

  function ScopeChain(s: State, maxLen: nat): seq<Name> {
    Truncate(FullChain(s), maxLen)
  }

  // ---- Operations ----

  function New(): State {
    State(None, map[], None, 1, [], 0, None, None)
  }

  function FromValuesWithChain(values: Overlay, remoteChain: seq<Name>): State {
    State(None, values, None, 1, remoteChain, 1, None, None)
  }

  /** The current scope as a frozen node of the given depth. */
  function Freeze(s: State): ScopeNode {
    ScopeNode(s.currentName, s.currentValues, s.scopeChain, s.depth, s.remoteChain, s.remoteChainBaseDepth,
              s.scopeBarrier)
  }

  function Fork(s: State): State {
    State(None, map[], None, 1, s.remoteChain, s.remoteChainBaseDepth, Some(Freeze(s)), None)
  }

  function CachedCopies(s: State, cached: set<Key>): Overlay {
    map k | k in cached && Lookup(s, k).Some? :: Lookup(s, k).value
  }

  /** Past the limit a push is dead: it only counts. */
  predicate IsDead(depth: nat) {
    depth > MAX_SCOPE_DEPTH + 1
  }

  function Push(s: State, cached: set<Key>, name: Option<Name>): State {
    if IsDead(s.depth + 1) then s.(depth := s.depth + 1)
    else
      s.(scopeChain := Some(Freeze(s)), currentValues := CachedCopies(s, cached), currentName := name,
         depth := s.depth + 1)
  }

  predicate CanPop(s: State) {
    s.depth > 1 && (IsDead(s.depth) || s.scopeChain.Some?)
  }

  /** One level: what the frozen node saved comes back. */
  function PopOnce(s: State): State
    requires CanPop(s)
  {
    if IsDead(s.depth) then s.(depth := s.depth - 1)
    else
      var n := s.scopeChain.value;
      State(n.parent, n.values, n.name, n.depth, n.remoteChain, n.remoteChainBaseDepth, s.frozenParent,
            n.savedScopeBarrier)
  }

  function PopWhile(s: State, expected: nat): State
    decreases s.scopeChain, s.depth
  {
    if s.depth >= expected && CanPop(s) then PopWhile(PopOnce(s), expected) else s
  }

  function Pop(s: State, expected: nat): State {
    if s.depth < expected || expected <= 1 then s else PopWhile(s, expected)
  }

  function Set(s: State, key: Key, value: Value): State {
    s.(currentValues := s.currentValues[key := value])
  }

  /** Writing every value that `source` sees into the current scope. */
  function Merge(s: State, source: State): State {
    s.(currentValues := s.currentValues + Flatten(Visible(source)))
  }

  // ---- The shape every reachable store has ----

  /** How many scopes, the current one included, a store of this depth really holds. */
  function RealDepth(depth: nat): nat {
    if IsDead(depth) then MAX_SCOPE_DEPTH + 1 else depth
  }

  /** `n` nodes of depths n, n-1, .., 1, the outermost unnamed, all agreeing on the remote prefix. */
  predicate ChainShape(chain: Option<ScopeNode>, n: nat, remoteChain: seq<Name>, base: nat) {
    match chain
    case None => n == 0
    case Some(node) =>
      && n > 0
      && node.depth == n
      && (n == 1 ==> node.name.None?)
      && node.savedScopeBarrier.None?
      && node.remoteChain == remoteChain
      && node.remoteChainBaseDepth == base
      && ChainShape(node.parent, n - 1, remoteChain, base)
  }

  predicate FrozenShape(frozen: Option<ScopeNode>) {
    frozen.Some? ==>
      && frozen.value.depth >= 1
      && (frozen.value.depth == 1 ==> frozen.value.name.None?)
      && frozen.value.savedScopeBarrier.None?
      && ChainShape(frozen.value.parent, RealDepth(frozen.value.depth) - 1, frozen.value.remoteChain,
                    frozen.value.remoteChainBaseDepth)
  }

  predicate Shape(s: State) {
    && s.depth >= 1
    && (s.depth == 1 ==> s.currentName.None?)
    && s.remoteChainBaseDepth <= 1
    && s.scopeBarrier.None?
    && ChainShape(s.scopeChain, RealDepth(s.depth) - 1, s.remoteChain, s.remoteChainBaseDepth)
    && FrozenShape(s.frozenParent)
  }

  // ---- Runs ----

  /** What can happen to a store; a fork and an attach continue with the store they produce. */
  datatype Op =
    | Enter(name: Option<Name>)
    | Leave(expected: nat)
    | Write(key: Key, value: Value)
    | MergeFrom(source: State)
    | ForkOff
    | AttachNew(values: Overlay, remoteChain: seq<Name>)

  function Step(s: State, cached: set<Key>, op: Op): State {
    match op
    case Enter(name) => Push(s, cached, name)
    case Leave(expected) => Pop(s, expected)
    case Write(key, value) => Set(s, key, value)
    case MergeFrom(source) => Merge(s, source)
    case ForkOff => Fork(s)
    case AttachNew(values, remoteChain) => FromValuesWithChain(values, remoteChain)
  }

  function Run(s: State, cached: set<Key>, ops: seq<Op>): State
    decreases ops
  {
    if ops == [] then s else Run(Step(s, cached, ops[0]), cached, ops[1..])
  }

  /** A pop that fires keeps the shape, never meets a missing node, and ends one below `expected`. */
  lemma {:induction false} PopWhileShape(s: State, expected: nat)
    requires Shape(s) && expected >= 2
    ensures Shape(PopWhile(s, expected))
    ensures PopWhile(s, expected).depth == if s.depth >= expected then expected - 1 else s.depth
    decreases s.depth
  {
    if s.depth >= expected {
      assert CanPop(s);
      PopWhileShape(PopOnce(s), expected);
    }
  }

  lemma StepShape(s: State, cached: set<Key>, op: Op)
    requires Shape(s)
    ensures Shape(Step(s, cached, op))
  {
    match op
    case Leave(expected) =>
      if expected >= 2 { PopWhileShape(s, expected); }
    case _ =>
  }

  /** Every store reachable from the empty one has the shape. */
  lemma {:induction false} ReachableShape(s: State, cached: set<Key>, ops: seq<Op>)
    requires Shape(s)
    ensures Shape(Run(s, cached, ops))
    decreases ops
  {
    if ops != [] {
      StepShape(s, cached, ops[0]);
      ReachableShape(Step(s, cached, ops[0]), cached, ops[1..]);
    }
  }

  lemma {:induction false} ChainSize(chain: Option<ScopeNode>, n: nat, remoteChain: seq<Name>, base: nat, floor: int)
    requires ChainShape(chain, n, remoteChain, base) && floor <= 0
    ensures |ChainOverlays(chain, floor)| == n
    decreases n
  {
    if n > 0 {
      ChainSize(chain.value.parent, n - 1, remoteChain, base, floor);
    }
  }

  /**
   In every store reachable from the empty one the chain holds one node per real level below the
   current one, a level above the root can always be popped (the loop in `pop_scope` never meets
   a missing node), and a lookup inspects at most 2 * MAX_SCOPE_DEPTH + 2 maps.
   */
  lemma ReachableStores(cached: set<Key>, ops: seq<Op>)
    ensures var s := Run(New(), cached, ops);
            && Shape(s)
            && |LocalOverlays(s)| == (if s.depth <= 1025 then s.depth else 1025)
            && (s.depth > 1 ==> CanPop(s))
            && |Visible(s)| <= 2 * MAX_SCOPE_DEPTH + 2
  {
    var s := Run(New(), cached, ops);
    ReachableShape(New(), cached, ops);
    ChainSize(s.scopeChain, RealDepth(s.depth) - 1, s.remoteChain, s.remoteChainBaseDepth, Floor(s));
    if s.frozenParent.Some? {
      var f := s.frozenParent.value;
      ChainSize(f.parent, RealDepth(f.depth) - 1, f.remoteChain, f.remoteChainBaseDepth, NO_FLOOR);
    }
  }
}
