/**
 The conceptual data structure of docs/design.md:75-90 as a machine of its own: a stack of overlay
 maps, topmost first. Entering puts an empty map on top, setting writes the top, leaving drops maps
 from the top, a lookup is the first match. Two things are added to it: past the limit a scope is only
 counted, and a fork starts a new stack over its parent's.
 */
module OverlayStack {
  import opened Wrappers
  import opened Overlays
  import opened Scopes
  import Forking
  import Caching

  datatype Stack = Stack(own: seq<Overlay>, dead: nat, inherited: seq<Overlay>)

  function Depth(t: Stack): nat {
    |t.own| + t.dead
  }

  predicate Proper(t: Stack) {
    0 < |t.own| <= MAX_SCOPE_DEPTH + 1 && (t.dead > 0 ==> |t.own| == MAX_SCOPE_DEPTH + 1)
  }

  /** All but the lowest `n` maps are dropped. */
  function Lowest(own: seq<Overlay>, n: nat): seq<Overlay>
    requires n <= |own|
  {
    own[|own| - n..]
  }

  function OnTop(t: Stack, values: Overlay): Stack
    requires Proper(t)
  {
    t.(own := [t.own[0] + values] + t.own[1..])
  }

  function LeaveTo(t: Stack, expected: nat): Stack
    requires Proper(t)
  {
    if expected <= 1 || Depth(t) < expected then t
    else if expected > MAX_SCOPE_DEPTH + 1 then t.(dead := expected - 1 - |t.own|)
    else t.(own := Lowest(t.own, expected - 1), dead := 0)
  }

  function Do(t: Stack, op: Op): (t': Stack)
    requires Proper(t)
    ensures Proper(t')
  {
    match op
    case Enter(_) => if |t.own| == MAX_SCOPE_DEPTH + 1 then t.(dead := t.dead + 1) else t.(own := [map[]] + t.own)
    case Leave(expected) => LeaveTo(t, expected)
    case Write(key, value) => OnTop(t, map[key := value])
    case MergeFrom(source) => OnTop(t, Flatten(Visible(source)))
    case ForkOff => Stack([map[]], 0, t.own)
    case AttachNew(values, _) => Stack([values], 0, [])
  }

  function DoAll(t: Stack, ops: seq<Op>): Stack
    requires Proper(t)
    decreases ops
  {
    if ops == [] then t else DoAll(Do(t, ops[0]), ops[1..])
  }

  function See(t: Stack, key: Key): Option<Value> {
    FirstMatch(t.own + t.inherited, key)
  }

  const EMPTY: Stack := Stack([map[]], 0, [])

  /** A store stands for a stack. */
  predicate StandsFor(s: State, t: Stack) {
    Shape(s) && Proper(t) && s.depth == Depth(t) && LocalOverlays(s) == t.own && FrozenOverlays(s) == t.inherited
  }

  lemma {:induction false} PopRefines(s: State, t: Stack, expected: nat)
    requires StandsFor(s, t) && expected >= 2
    ensures StandsFor(PopWhile(s, expected), LeaveTo(t, expected))
    decreases s.depth
  {
    if s.depth >= expected {
      if IsDead(s.depth) {
        var t1 := t.(dead := t.dead - 1);
        PopRefines(PopOnce(s), t1, expected);
        assert LeaveTo(t1, expected) == LeaveTo(t, expected);
      } else {
        var t1 := t.(own := t.own[1..]);
        Forking.PopOverlays(s);
        PopRefines(PopOnce(s), t1, expected);
        assert LeaveTo(t1, expected) == LeaveTo(t, expected);
      }
    }
  }

  lemma OnTopRefines(s: State, t: Stack, values: Overlay)
    requires StandsFor(s, t)
    ensures StandsFor(s.(currentValues := s.currentValues + values), OnTop(t, values))
  {
    var s' := s.(currentValues := s.currentValues + values);
    assert LocalOverlays(s')[1..] == LocalOverlays(s)[1..];
    assert LocalOverlays(s') == [LocalOverlays(s')[0]] + LocalOverlays(s')[1..];
  }

  lemma DoRefines(s: State, t: Stack, op: Op)
    requires StandsFor(s, t)
    ensures StandsFor(Step(s, {}, op), Do(t, op))
  {
    StepShape(s, {}, op);
    match op
    case Enter(name) =>
      if !IsDead(s.depth + 1) {
        Forking.PushOverlays(s, {}, name);
        assert CachedCopies(s, {}) == map[];
      }
    case Leave(expected) => if expected >= 2 { PopRefines(s, t, expected); }
    case Write(key, value) =>
      assert s.currentValues[key := value] == s.currentValues + map[key := value];
      OnTopRefines(s, t, map[key := value]);
    case MergeFrom(source) => OnTopRefines(s, t, Flatten(Visible(source)));
    case ForkOff => Forking.ForkSeesOwnScopes(s);
    case AttachNew(_, _) =>
  }

  lemma {:induction false} RunRefines(s: State, t: Stack, ops: seq<Op>)
    requires StandsFor(s, t)
    ensures StandsFor(Run(s, {}, ops), DoAll(t, ops))
    decreases ops
  {
    if ops != [] {
      DoRefines(s, t, ops[0]);
      RunRefines(Step(s, {}, ops[0]), Do(t, ops[0]), ops[1..]);
    }
  }

  /**
   The store refines the stack: after any run, forks of forks included, every lookup finds what the
   first match in the stack finds; with cached keys, as long as no fork is forked.
   */
  lemma StoreRefinesStack(cached: set<Key>, ops: seq<Op>)
    requires cached == {} || Caching.SingleForks(ops, false)
    ensures forall k :: Lookup(Run(New(), cached, ops), k) == See(DoAll(EMPTY, ops), k)
    ensures Run(New(), cached, ops).depth == Depth(DoAll(EMPTY, ops))
  {
    RunRefines(New(), EMPTY, ops);
    if cached != {} {
      Caching.NewRelated(cached);
      Caching.RunRelated(New(), New(), cached, ops);
      Caching.CacheTransparency(cached, ops);
    }
  }
}
