/** The mutable store of dcontext/src/store.rs. */
module ContextStores {
  import opened Wrappers
  import opened Overlays
  import opened Scopes

  class ContextStore {
    var scopeChain: Option<ScopeNode>
    var currentValues: Overlay
    var currentName: Option<Name>
    var depth: nat
    var remoteChain: seq<Name>
    var remoteChainBaseDepth: nat
    var frozenParent: Option<ScopeNode>
    var scopeBarrier: Option<nat>

    /** The store's whole value. */
    function View(): State
      reads this
    {
      State(scopeChain, currentValues, currentName, depth, remoteChain, remoteChainBaseDepth, frozenParent,
            scopeBarrier)
    }

    constructor New()
      ensures View() == Scopes.New() == State(None, map[], None, 1, [], 0, None, None)
    {
      scopeChain, currentValues, currentName, depth := None, map[], None, 1;
      remoteChain, remoteChainBaseDepth, frozenParent, scopeBarrier := [], 0, None, None;
    }

    constructor FromValuesWithChain(values: Overlay, chain: seq<Name>)
      ensures View() == Scopes.FromValuesWithChain(values, chain) == State(None, values, None, 1, chain, 1, None, None)
    {
      scopeChain, currentValues, currentName, depth := None, values, None, 1;
      remoteChain, remoteChainBaseDepth, frozenParent, scopeBarrier := chain, 1, None, None;
    }

    constructor Forked(chain: seq<Name>, baseDepth: nat, frozen: ScopeNode)
      ensures View() == State(None, map[], None, 1, chain, baseDepth, Some(frozen), None)
    {
      scopeChain, currentValues, currentName, depth := None, map[], None, 1;
      remoteChain, remoteChainBaseDepth, frozenParent, scopeBarrier := chain, baseDepth, Some(frozen), None;
    }

    /** A fresh child that reads through to this store's current values and scope chain. */
    method ForkChild() returns (child: ContextStore)
      ensures fresh(child) && child.View() == Fork(View())
    {
      var frozen := ScopeNode(currentName, currentValues, scopeChain, depth, remoteChain, remoteChainBaseDepth,
                              scopeBarrier);
      child := new ContextStore.Forked(remoteChain, remoteChainBaseDepth, frozen);
    }

    /** Enters a scope and returns the new depth, also when the scope is dead. */
    method PushScope(cached: set<Key>, name: Option<Name>) returns (newDepth: nat)
      modifies this
      ensures View() == Push(old(View()), cached, name)
      ensures newDepth == depth == old(depth) + 1
    {
      depth := depth + 1;
      if depth > MAX_SCOPE_DEPTH + 1 {
        return depth;
      }

      var copies := CopyCached(cached);
      var node := ScopeNode(currentName, currentValues, scopeChain, depth - 1, remoteChain, remoteChainBaseDepth,
                            scopeBarrier);
      scopeChain := Some(node);
      currentName := name;
      currentValues := copies;
      return depth;
    }

    /** The effective values of the cached keys, looked up one by one in any order. */
    method CopyCached(cached: set<Key>) returns (copies: Overlay)
      ensures copies == CachedCopies(View(), cached)
    {
      copies := map[];
      var pending := cached;
      while pending != {}
        invariant pending <= cached
        invariant forall k :: k in copies <==> k in cached - pending && Lookup(View(), k).Some?
        invariant forall k :: k in copies ==> copies[k] == Lookup(View(), k).value
        decreases |pending|
      {
        var key :| key in pending;
        var found := GetValue(key);
        if found.Some? {
          copies := copies[key := found.value];
        }
        pending := pending - {key};
      }
    }

    /**
     Leaves every scope at depth `expected` or deeper. The values of the scopes left behind are
     handed back for the caller to drop; there are none exactly if no real scope was left.
     */
    method PopScope(expected: nat) returns (garbage: Option<Overlay>)
      modifies this
      ensures View() == Pop(old(View()), expected)
      ensures garbage.None? <==> scopeChain == old(scopeChain)
    {
      garbage := None;
      if depth < expected || expected <= 1 {
        return;
      }
      while depth >= expected && depth > 1
        invariant PopWhile(View(), expected) == PopWhile(old(View()), expected)
        invariant if garbage.None? then scopeChain == old(scopeChain)
                  else ChainLength(scopeChain) < ChainLength(old(scopeChain))
        decreases scopeChain, depth
      {
        if depth > MAX_SCOPE_DEPTH + 1 {
          depth := depth - 1;
          continue;
        }
        if scopeChain.None? {
          break;
        }
        var node := scopeChain.value;
        garbage := Some(if garbage.Some? then garbage.value + currentValues else currentValues);
        scopeChain := node.parent;
        currentName := node.name;
        currentValues := node.values;
        depth := node.depth;
        remoteChain := node.remoteChain;
        remoteChainBaseDepth := node.remoteChainBaseDepth;
        scopeBarrier := node.savedScopeBarrier;
      }
    }

    /** Writes into the current scope and returns the value that was there. */
    method SetValue(key: Key, value: Value) returns (previous: Option<Value>)
      modifies this`currentValues
      ensures View() == Set(old(View()), key, value)
      ensures previous == Get(old(currentValues), key)
    {
      previous := if key in currentValues then Some(currentValues[key]) else None;
      currentValues := currentValues[key := value];
    }

    /** The first match in the overlay stack the store stands for. */
    method GetValue(key: Key) returns (found: Option<Value>)
      ensures found == Lookup(View(), key)
    {
      FirstMatchAppend(LocalOverlays(View()), FrozenOverlays(View()), key);
      if key in currentValues {
        return Some(currentValues[key]);
      }
      var barrier := if scopeBarrier.Some? then scopeBarrier.value else 0;
      var node := scopeChain;
      while node.Some?
        invariant FirstMatch(ChainOverlays(scopeChain, barrier), key) == FirstMatch(ChainOverlays(node, barrier), key)
        decreases node
      {
        if node.value.depth <= barrier {
          break;
        }
        if key in node.value.values {
          return Some(node.value.values[key]);
        }
        node := node.value.parent;
      }
      if scopeBarrier.None? {
        node := frozenParent;
        while node.Some?
          invariant FirstMatch(ChainOverlays(frozenParent, NO_FLOOR), key)
                 == FirstMatch(ChainOverlays(node, NO_FLOOR), key)
          decreases node
        {
          if key in node.value.values {
            return Some(node.value.values[key]);
          }
          node := node.value.parent;
        }
      }
      return None;
    }

    /** One map holding, for every key, what a lookup of that key finds. */
    method CollectValues() returns (result: Overlay)
      ensures result == Flatten(Visible(View()))
      ensures forall k :: Get(result, k) == Lookup(View(), k)
    {
      ghost var s := View();
      var barrier := if scopeBarrier.Some? then scopeBarrier.value else 0;
      result := InsertMissingFromChain(currentValues, scopeChain, barrier);
      if scopeBarrier.None? {
        result := InsertMissingFromChain(result, frozenParent, NO_FLOOR);
      }
      forall k ensures Get(result, k) == Lookup(s, k) && Get(result, k) == Get(Flatten(Visible(s)), k) {
        FirstMatchAppend(LocalOverlays(s), FrozenOverlays(s), k);
        FlattenLookup(Visible(s), k);
      }
      SameLookups(result, Flatten(Visible(s)));
    }

    /** The remote prefix, then the frozen names, then the local names, each outermost first, cut to the limit. */
    method GetScopeChain(maxLen: nat) returns (chain: seq<Name>)
      ensures chain == ScopeChain(View(), maxLen) && IsEnd(chain, FullChain(View()), maxLen)
    {
      ghost var s := View();
      var collected := if currentName.Some? && depth > remoteChainBaseDepth then [currentName.value] else [];
      var barrier := if scopeBarrier.Some? then scopeBarrier.value else 0;
      var localNames := WalkNames(scopeChain, barrier, remoteChainBaseDepth, collected);
      assert localNames == LocalNames(s) by {
        assert Reversed(collected) == Named(currentName, depth, remoteChainBaseDepth);
      }

      var parentNames: seq<Name> := [];
      if scopeBarrier.None? {
        parentNames := WalkNames(frozenParent, NO_FLOOR, NO_FLOOR, []);
        assert parentNames == FrozenNames(s);
      }

      chain := remoteChain + parentNames + localNames;
      assert chain == FullChain(s);
      TruncateIsEnd(chain, maxLen);
      if maxLen > 0 && |chain| > maxLen {
        chain := chain[|chain| - maxLen..];
      }
    }
  }

  /** Adds a chain's names, innermost first, to those collected so far, and turns the result around. */
  method WalkNames(chain: Option<ScopeNode>, floor: int, base: int, collected: seq<Name>) returns (names: seq<Name>)
    ensures names == ChainNames(chain, floor, base) + Reversed(collected)
  {
    var innermostFirst := collected;
    var node := chain;
    while node.Some?
      invariant ChainNames(node, floor, base) + Reversed(innermostFirst)
             == ChainNames(chain, floor, base) + Reversed(collected)
      decreases node
    {
      if node.value.depth <= floor {
        break;
      }
      NameStep(node.value, floor, base, innermostFirst);
      innermostFirst := innermostFirst + Named(node.value.name, node.value.depth, base);
      node := node.value.parent;
    }
    names := Reversed(innermostFirst);
  }

  function ChainLength(chain: Option<ScopeNode>): nat {
    if chain.None? then 0 else 1 + ChainLength(chain.value.parent)
  }

  function Reversed(names: seq<Name>): seq<Name> {
    if names == [] then [] else [names[|names| - 1]] + Reversed(names[..|names| - 1])
  }

  /** Moving the innermost name of a chain to the names collected so far. */
  lemma NameStep(node: ScopeNode, floor: int, base: int, collected: seq<Name>)
    requires node.depth > floor
    ensures ChainNames(Some(node), floor, base) + Reversed(collected)
         == ChainNames(node.parent, floor, base) + Reversed(collected + Named(node.name, node.depth, base))
  {
    var outer, own := ChainNames(node.parent, floor, base), Named(node.name, node.depth, base);
    if own == [] {
      assert collected + own == collected;
      assert outer + own == outer;
    } else {
      assert (collected + own)[..|collected|] == collected;
      assert (outer + own) + Reversed(collected) == outer + (own + Reversed(collected));
    }
  }

  /** `HashMap::entry(k).or_insert(v)` for every entry of `values`, in whatever order they come. */
  method InsertMissing(into: Overlay, values: Overlay) returns (result: Overlay)
    ensures forall k :: Get(result, k) == OrElse(Get(into, k), Get(values, k))
  {
    result := into;
    var pending := values.Keys;
    while pending != {}
      invariant pending <= values.Keys
      invariant forall k :: Get(result, k) == OrElse(Get(into, k), if k in pending then None else Get(values, k))
      decreases |pending|
    {
      var key :| key in pending;
      if key !in result {
        result := result[key := values[key]];
      }
      pending := pending - {key};
    }
  }

  /** Adds what a chain binds and `into` does not, inner scopes first. */
  method InsertMissingFromChain(into: Overlay, chain: Option<ScopeNode>, floor: int) returns (result: Overlay)
    ensures forall k :: Get(result, k) == OrElse(Get(into, k), FirstMatch(ChainOverlays(chain, floor), k))
  {
    result := into;
    var node := chain;
    while node.Some?
      invariant forall k :: OrElse(Get(result, k), FirstMatch(ChainOverlays(node, floor), k))
                         == OrElse(Get(into, k), FirstMatch(ChainOverlays(chain, floor), k))
      decreases node
    {
      if node.value.depth <= floor {
        break;
      }
      result := InsertMissing(result, node.value.values);
      node := node.value.parent;
    }
  }
}
