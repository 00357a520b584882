/** Capturing a store, rebuilding one from a snapshot, and merging (dcontext/src/lib.rs:70-100, 231-240). */
module Snapshots {
  import opened Wrappers
  import opened Overlays
  import opened Scopes
  import opened Registry

  datatype Snapshot = Snapshot(values: Overlay, scopeChain: seq<Name>)

  function Capture(m: RegistryMap, maxLen: nat, s: State): Snapshot {
    var values := Flatten(Visible(s));
    Snapshot(map k | k in values && !IsLocalKey(m, k) :: values[k], ScopeChain(s, maxLen))
  }

  function Rebuild(m: RegistryMap, snap: Snapshot): State {
    FromValuesWithChain(
      map k | k in snap.values && IsValidValue(m, k, snap.values[k]) && !IsLocalKey(m, k) :: snap.values[k],
      snap.scopeChain)
  }

  /** What crosses: registered, of the registered type, not local-only. */
  function Projected(m: RegistryMap, key: Key, value: Option<Value>): Option<Value> {
    if value.Some? && IsPortable(m, key) && m[key].typeId == value.value.tag then value else None
  }

  lemma TruncateTwice(names: seq<Name>, maxLen: nat)
    ensures Truncate(Truncate(names, maxLen), maxLen) == Truncate(names, maxLen)
  {
  }

  lemma FlatView(values: Overlay, chain: seq<Name>)
    ensures var s := FromValuesWithChain(values, chain);
            && Shape(s)
            && (forall k :: Lookup(s, k) == Get(values, k))
            && FullChain(s) == chain
  {
    var s := FromValuesWithChain(values, chain);
    forall k ensures Lookup(s, k) == Get(values, k) {
      var stack := Visible(s);
      assert stack == [values] && stack[1..] == [];
      assert FirstMatch(stack[1..], k) == None;
    }
    assert FullChain(s) == chain + [] + [] == chain;
  }

  lemma CaptureLookup(m: RegistryMap, maxLen: nat, s: State, key: Key)
    ensures Get(Capture(m, maxLen, s).values, key) == if IsLocalKey(m, key) then None else Lookup(s, key)
  {
    FlattenLookup(Visible(s), key);
  }

  /** The rebuilt store sees, for every key, exactly the projection of what the original saw. */
  lemma RebuildLookups(m: RegistryMap, maxLen: nat, s: State)
    ensures var t := Rebuild(m, Capture(m, maxLen, s));
            && (forall k :: Lookup(t, k) == Projected(m, k, Lookup(s, k)))
            && (forall k :: Get(t.currentValues, k) == Lookup(t, k))
  {
    var t := Rebuild(m, Capture(m, maxLen, s));
    var snap := Capture(m, maxLen, s);
    assert t == FromValuesWithChain(t.currentValues, t.remoteChain);
    FlatView(t.currentValues, t.remoteChain);
    forall k ensures Lookup(t, k) == Projected(m, k, Lookup(s, k)) {
      CaptureLookup(m, maxLen, s, k);
      assert Get(t.currentValues, k) == Projected(m, k, Get(snap.values, k));
    }
  }

  /** The rebuilt store has the original's scope chain. */
  lemma RebuildChain(m: RegistryMap, maxLen: nat, s: State)
    ensures var t := Rebuild(m, Capture(m, maxLen, s));
            Shape(t) && FullChain(t) == ScopeChain(s, maxLen) && ScopeChain(t, maxLen) == ScopeChain(s, maxLen)
  {
    var t := Rebuild(m, Capture(m, maxLen, s));
    FlatView(t.currentValues, t.remoteChain);
    TruncateTwice(FullChain(s), maxLen);
  }

  /** Doing it again changes nothing. */
  lemma RebuildIdempotent(m: RegistryMap, maxLen: nat, s: State)
    ensures var t := Rebuild(m, Capture(m, maxLen, s)); Rebuild(m, Capture(m, maxLen, t)) == t
  {
    var t := Rebuild(m, Capture(m, maxLen, s));
    var u := Rebuild(m, Capture(m, maxLen, t));
    RebuildLookups(m, maxLen, s);
    RebuildLookups(m, maxLen, t);
    RebuildChain(m, maxLen, s);
    forall k ensures Get(u.currentValues, k) == Get(t.currentValues, k) {
      assert Lookup(t, k) == Get(t.currentValues, k);
    }
    SameLookups(u.currentValues, t.currentValues);
  }

  /** Merging lets the source win on every key it binds, keeps the rest, and moves no scope. */
  lemma MergeLookups(s: State, source: State)
    ensures forall k :: Lookup(Merge(s, source), k) == OrElse(Lookup(source, k), Lookup(s, k))
    ensures FullChain(Merge(s, source)) == FullChain(s)
  {
    var t := Merge(s, source);
    assert Visible(t)[1..] == Visible(s)[1..];
    forall k ensures Lookup(t, k) == OrElse(Lookup(source, k), Lookup(s, k)) {
      FlattenLookup(Visible(source), k);
      assert Visible(t)[0] == s.currentValues + Flatten(Visible(source));
    }
  }
}
