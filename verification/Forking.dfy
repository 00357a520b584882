/** What a push and a fork let through (dcontext/src/store.rs:101-176, 263-378). */
module Forking {
  import opened Wrappers
  import opened Overlays
  import opened Scopes

  /** In a well-shaped chain neither the walk's floor nor the base depth hides anything. */
  lemma {:induction false} NothingHidden(chain: Option<ScopeNode>, n: nat, remoteChain: seq<Name>, base: nat)
    requires ChainShape(chain, n, remoteChain, base) && base <= 1
    ensures ChainOverlays(chain, 0) == ChainOverlays(chain, NO_FLOOR)
    ensures ChainNames(chain, 0, base) == ChainNames(chain, NO_FLOOR, NO_FLOOR)
    decreases n
  {
    if n > 0 {
      NothingHidden(chain.value.parent, n - 1, remoteChain, base);
    }
  }

  lemma NothingHiddenIn(s: State)
    requires Shape(s)
    ensures LocalOverlays(s) == ChainOverlays(Some(Freeze(s)), NO_FLOOR)
    ensures LocalNames(s) == ChainNames(Some(Freeze(s)), NO_FLOOR, NO_FLOOR)
  {
    NothingHidden(s.scopeChain, RealDepth(s.depth) - 1, s.remoteChain, s.remoteChainBaseDepth);
  }

  predicate Binds(stack: seq<Overlay>, key: Key) {
    FirstMatch(stack, key).Some?
  }

  lemma LookupSplit(s: State, key: Key)
    ensures Lookup(s, key) == OrElse(FirstMatch(LocalOverlays(s), key), FirstMatch(FrozenOverlays(s), key))
  {
    FirstMatchAppend(LocalOverlays(s), FrozenOverlays(s), key);
  }

  /** A fresh fork sees the parent's own scopes, and nothing of what the parent inherited. */
  lemma ForkSeesOwnScopes(s: State)
    requires Shape(s)
    ensures Shape(Fork(s))
    ensures LocalOverlays(Fork(s)) == [map[]] && FrozenOverlays(Fork(s)) == LocalOverlays(s)
    ensures forall k :: Lookup(Fork(s), k) == FirstMatch(LocalOverlays(s), k)
    ensures FrozenNames(Fork(s)) == LocalNames(s) && LocalNames(Fork(s)) == []
    ensures FullChain(Fork(s)) == s.remoteChain + LocalNames(s)
  {
    NothingHiddenIn(s);
    var child := Fork(s);
    forall k ensures Lookup(child, k) == FirstMatch(LocalOverlays(s), k) {
      LookupSplit(child, k);
      assert LocalOverlays(child)[1..] == [];
    }
    assert LocalNames(child) == [];
  }

  /**
   A fork agrees with its parent on every lookup exactly if every key bound in the parent's frozen
   ancestry is also bound in the parent's own scopes; so in particular if the parent was not forked.
   */
  lemma ForkAgreesOnLookups(s: State)
    requires Shape(s)
    ensures (forall k :: Lookup(Fork(s), k) == Lookup(s, k))
       <==> (forall k :: Binds(FrozenOverlays(s), k) ==> Binds(LocalOverlays(s), k))
    ensures s.frozenParent.None? ==> forall k :: Lookup(Fork(s), k) == Lookup(s, k)
  {
    ForkSeesOwnScopes(s);
    forall k
      ensures Lookup(Fork(s), k) == Lookup(s, k) <==> (Binds(FrozenOverlays(s), k) ==> Binds(LocalOverlays(s), k))
    {
      LookupSplit(s, k);
    }
    if s.frozenParent.None? {
      forall k ensures !Binds(FrozenOverlays(s), k) {}
    }
  }

  /** A fork has its parent's scope chain exactly if the parent inherited no names by a fork of its own. */
  lemma ForkAgreesOnNames(s: State)
    requires Shape(s)
    ensures FullChain(Fork(s)) == FullChain(s) <==> FrozenNames(s) == []
    ensures s.frozenParent.None? ==> forall maxLen :: ScopeChain(Fork(s), maxLen) == ScopeChain(s, maxLen)
  {
    ForkSeesOwnScopes(s);
    if FrozenNames(s) == [] {
      assert s.remoteChain + [] == s.remoteChain;
    } else {
      assert |FullChain(Fork(s))| < |FullChain(s)|;
    }
  }

  /** The grandchild of a fork loses what its parent inherited. */
  lemma ForkOfForkForgets(key: Key, value: Value)
    ensures var child := Fork(Set(New(), key, value));
            Shape(child) && Lookup(child, key) == Some(value) && Lookup(Fork(child), key) == None
  {
    var parent := Set(New(), key, value);
    var child := Fork(parent);
    ForkSeesOwnScopes(parent);
    ForkSeesOwnScopes(child);
    assert FirstMatch(LocalOverlays(parent), key) == Some(value);
    assert LocalOverlays(child)[1..] == [] && key !in LocalOverlays(child)[0];
    assert FirstMatch(LocalOverlays(child), key) == None;
  }

  /** Entering a scope, real or dead, changes no lookup. */
  lemma PushKeepsLookups(s: State, cached: set<Key>, name: Option<Name>)
    requires Shape(s)
    ensures forall k :: Lookup(Push(s, cached, name), k) == Lookup(s, k)
  {
    var t := Push(s, cached, name);
    if !IsDead(s.depth + 1) {
      PushOverlays(s, cached, name);
      forall k ensures Lookup(t, k) == Lookup(s, k) {
        assert Visible(t)[0] == t.currentValues;
        assert Visible(t)[1..] == Visible(s);
      }
    }
  }

  /** Entering a scope adds just its name, if it is real and has one. */
  lemma PushAppendsName(s: State, cached: set<Key>, name: Option<Name>)
    requires Shape(s)
    ensures var t, own := Push(s, cached, name), if name.Some? && !IsDead(s.depth + 1) then [name.value] else [];
            && FrozenNames(t) == FrozenNames(s)
            && LocalNames(t) == LocalNames(s) + own
            && FullChain(t) == FullChain(s) + own
  {
    var t := Push(s, cached, name);
    if !IsDead(s.depth + 1) {
      StepShape(s, cached, Enter(name));
      NothingHiddenIn(s);
      NothingHiddenIn(t);
      assert LocalNames(t) == LocalNames(s) + Named(name, t.depth, NO_FLOOR);
    } else {
      assert LocalNames(t) == LocalNames(s);
    }
  }

  lemma PushOverlays(s: State, cached: set<Key>, name: Option<Name>)
    requires Shape(s) && !IsDead(s.depth + 1)
    ensures LocalOverlays(Push(s, cached, name)) == [CachedCopies(s, cached)] + LocalOverlays(s)
    ensures FrozenOverlays(Push(s, cached, name)) == FrozenOverlays(s)
  {
    NothingHiddenIn(s);
    StepShape(s, cached, Enter(name));
    NothingHiddenIn(Push(s, cached, name));
  }

  lemma PopOverlays(s: State)
    requires Shape(s) && s.depth > 1 && !IsDead(s.depth)
    ensures LocalOverlays(PopOnce(s)) == LocalOverlays(s)[1..]
    ensures FrozenOverlays(PopOnce(s)) == FrozenOverlays(s)
  {
    NothingHiddenIn(s);
    NothingHiddenIn(PopOnce(s));
  }
}
