/** The scope chain across any number of hops (dcontext/src/store.rs:329-378, dcontext/src/lib.rs:79-99). */
module ScopeNames {
  import opened Wrappers
  import opened Overlays
  import opened Scopes
  import Forking
  import opened Registry
  import opened Snapshots

  /** Cutting early loses nothing that a later cut would keep. */
  lemma TruncateAppend(xs: seq<Name>, ys: seq<Name>, maxLen: nat)
    ensures Truncate(Truncate(xs, maxLen) + ys, maxLen) == Truncate(xs + ys, maxLen)
  {
    if maxLen > 0 && |xs| > maxLen {
      var cut := xs[|xs| - maxLen..];
      var a, b := cut + ys, xs + ys;
      assert a[|a| - maxLen..] == b[|b| - maxLen..];
    }
  }

  /** A scope just entered, unless it is dead, is the last of the chain under any limit. */
  lemma InnermostLast(s: State, cached: set<Key>, name: Name, maxLen: nat)
    requires Shape(s) && s.depth <= MAX_SCOPE_DEPTH
    ensures var chain := ScopeChain(Push(s, cached, Some(name)), maxLen); chain != [] && chain[|chain| - 1] == name
  {
    Forking.PushAppendsName(s, cached, Some(name));
  }

  /** A step of a context's journey: a scope entered, a fork continued with, or a capture attached somewhere. */
  datatype Leg = EnterScope(name: Option<Name>) | ForkedOff | Relayed

  function Go(m: RegistryMap, maxLen: nat, s: State, leg: Leg): State {
    match leg
    case EnterScope(name) => Push(s, CachedKeys(m), name)
    case ForkedOff => Fork(s)
    case Relayed => Rebuild(m, Capture(m, maxLen, s))
  }

  function Travel(m: RegistryMap, maxLen: nat, s: State, legs: seq<Leg>): State
    decreases legs
  {
    if legs == [] then s else Travel(m, maxLen, Go(m, maxLen, s, legs[0]), legs[1..])
  }

  /** The name a leg enters, if it enters a real scope and the scope has one. */
  function Entered(depth: nat, leg: Leg): seq<Name> {
    if leg.EnterScope? && leg.name.Some? && !IsDead(depth + 1) then [leg.name.value] else []
  }

  /** The names of the real scopes entered, in order. */
  function NamesEntered(depth: nat, legs: seq<Leg>): seq<Name>
    decreases legs
  {
    if legs == [] then [] else Entered(depth, legs[0]) + NamesEntered(DepthAfter(depth, legs[0]), legs[1..])
  }

  // ---- The three parts of a chain ----

  /** The remote prefix, the names inherited by a fork, and the names of the store's own scopes. */
  datatype Names = Names(remote: seq<Name>, inherited: seq<Name>, own: seq<Name>)

  function All(n: Names): seq<Name> {
    n.remote + n.inherited + n.own
  }

  function NamesOf(s: State): Names {
    Names(s.remoteChain, FrozenNames(s), LocalNames(s))
  }

  /** By names alone: a scope adds to its own, a fork inherits the parent's own, a capture makes one cut prefix. */
  function GoNames(maxLen: nat, depth: nat, n: Names, leg: Leg): Names {
    match leg
    case EnterScope(_) => n.(own := n.own + Entered(depth, leg))
    case ForkedOff => Names(n.remote, n.own, [])
    case Relayed => Names(Truncate(All(n), maxLen), [], [])
  }

  function DepthAfter(depth: nat, leg: Leg): nat {
    if leg.EnterScope? then depth + 1 else 1
  }

  function TravelNames(maxLen: nat, depth: nat, n: Names, legs: seq<Leg>): Names
    decreases legs
  {
    if legs == [] then n
    else TravelNames(maxLen, DepthAfter(depth, legs[0]), GoNames(maxLen, depth, n, legs[0]), legs[1..])
  }

  lemma GoKeepsNames(m: RegistryMap, maxLen: nat, s: State, leg: Leg)
    requires Shape(s)
    ensures var t := Go(m, maxLen, s, leg);
            Shape(t) && t.depth == DepthAfter(s.depth, leg) && NamesOf(t) == GoNames(maxLen, s.depth, NamesOf(s), leg)
  {
    match leg
    case EnterScope(name) =>
      StepShape(s, CachedKeys(m), Enter(name));
      Forking.PushAppendsName(s, CachedKeys(m), name);
    case ForkedOff =>
      Forking.ForkSeesOwnScopes(s);
    case Relayed =>
      RebuildChain(m, maxLen, s);
  }

  lemma {:induction false} TravelKeepsNames(m: RegistryMap, maxLen: nat, s: State, legs: seq<Leg>)
    requires Shape(s)
    ensures NamesOf(Travel(m, maxLen, s, legs)) == TravelNames(maxLen, s.depth, NamesOf(s), legs)
    decreases legs
  {
    if legs != [] {
      GoKeepsNames(m, maxLen, s, legs[0]);
      TravelKeepsNames(m, maxLen, Go(m, maxLen, s, legs[0]), legs[1..]);
    }
  }

  /** No fork is forked again, before a capture, while it has inherited names: a second fork would drop them. */
  predicate NothingForgotten(depth: nat, inherited: bool, own: bool, legs: seq<Leg>)
    decreases legs
  {
    legs != [] ==>
      match legs[0]
      case EnterScope(_) => NothingForgotten(depth + 1, inherited, own || Entered(depth, legs[0]) != [], legs[1..])
      case ForkedOff => !inherited && NothingForgotten(1, own, false, legs[1..])
      case Relayed => NothingForgotten(1, false, false, legs[1..])
  }

  predicate Forgetless(depth: nat, n: Names, legs: seq<Leg>) {
    NothingForgotten(depth, n.inherited != [], n.own != [], legs)
  }

  lemma RegroupOne(maxLen: nat, depth: nat, n: Names, leg: Leg, later: seq<Name>)
    requires leg.ForkedOff? ==> n.inherited == []
    ensures Truncate(All(GoNames(maxLen, depth, n, leg)) + later, maxLen)
         == Truncate(All(n) + (Entered(depth, leg) + later), maxLen)
  {
    var entered := Entered(depth, leg);
    match leg
    case EnterScope(_) => assert All(GoNames(maxLen, depth, n, leg)) + later == All(n) + (entered + later);
    case ForkedOff =>
      assert n.remote + [] == n.remote;
      assert All(GoNames(maxLen, depth, n, leg)) == All(n);
      assert entered + later == later;
    case Relayed =>
      assert All(GoNames(maxLen, depth, n, leg)) == Truncate(All(n), maxLen);
      TruncateAppend(All(n), later, maxLen);
      assert entered + later == later;
  }

  /** However often the chain was cut on the way, its end is the end of all the names. */
  lemma {:induction false} TravelEnds(maxLen: nat, depth: nat, n: Names, legs: seq<Leg>)
    requires Forgetless(depth, n, legs)
    ensures Truncate(All(TravelNames(maxLen, depth, n, legs)), maxLen)
         == Truncate(All(n) + NamesEntered(depth, legs), maxLen)
    decreases legs
  {
    if legs == [] {
      assert All(n) + [] == All(n);
    } else {
      var d, n', rest := DepthAfter(depth, legs[0]), GoNames(maxLen, depth, n, legs[0]), legs[1..];
      TravelEnds(maxLen, d, n', rest);
      RegroupOne(maxLen, depth, n, legs[0], NamesEntered(d, rest));
    }
  }

  /** Without a limit the chain never has more names than were entered, and fewer as soon as one is forgotten. */
  lemma {:induction false} TravelCounts(depth: nat, n: Names, legs: seq<Leg>)
    ensures |All(TravelNames(0, depth, n, legs))| <= |All(n)| + |NamesEntered(depth, legs)|
    ensures !Forgetless(depth, n, legs) ==>
              |All(TravelNames(0, depth, n, legs))| < |All(n)| + |NamesEntered(depth, legs)|
    decreases legs
  {
    if legs != [] {
      TravelCounts(DepthAfter(depth, legs[0]), GoNames(0, depth, n, legs[0]), legs[1..]);
    }
  }

  lemma ChainIs(m: RegistryMap, maxLen: nat, legs: seq<Leg>)
    ensures NothingForgotten(1, false, false, legs) ==>
              ScopeChain(Travel(m, maxLen, New(), legs), maxLen) == Truncate(NamesEntered(1, legs), maxLen)
    ensures !NothingForgotten(1, false, false, legs) && maxLen == 0 ==>
              |ScopeChain(Travel(m, maxLen, New(), legs), maxLen)| < |NamesEntered(1, legs)|
  {
    TravelKeepsNames(m, maxLen, New(), legs);
    var none := NamesOf(New());
    assert none == Names([], [], []) && All(none) == [];
    assert [] + NamesEntered(1, legs) == NamesEntered(1, legs);
    if NothingForgotten(1, false, false, legs) {
      TravelEnds(maxLen, 1, none, legs);
    } else if maxLen == 0 {
      TravelCounts(1, none, legs);
    }
  }

  /**
   With a fixed limit, however often a context is captured and attached on its way, its scope chain
   ends as the last `maxLen` of all names ever entered (all of them if there is no limit), provided no
   fork that inherited names is itself forked before a capture; without a limit, exactly then.
   */
  lemma ChainOverHops(m: RegistryMap, maxLen: nat, legs: seq<Leg>)
    ensures NothingForgotten(1, false, false, legs) ==>
              IsEnd(ScopeChain(Travel(m, maxLen, New(), legs), maxLen), NamesEntered(1, legs), maxLen)
    ensures maxLen == 0 ==>
              (ScopeChain(Travel(m, maxLen, New(), legs), maxLen) == NamesEntered(1, legs) <==>
                 NothingForgotten(1, false, false, legs))
  {
    ChainIs(m, maxLen, legs);
    TruncateIsEnd(NamesEntered(1, legs), maxLen);
  }
}
