/**
 Context values and the conceptual model of section 2.1 of docs/design.md: a stack of overlay
 maps, topmost first, where a lookup is the first match.
 */
module Overlays {
  import opened Wrappers

  type Key = string
  type Name = string

  /** A Rust type, as `TypeId` identifies it. */
  type TypeTag = nat

  /** A type-erased value: its type and which of that type's values it is. */
  datatype Value = Value(tag: TypeTag, payload: nat)

  type Overlay = map<Key, Value>

  function FirstMatch(stack: seq<Overlay>, key: Key): Option<Value> {
    if stack == [] then None
    else if key in stack[0] then Some(stack[0][key])
    else FirstMatch(stack[1..], key)
  }

  /** The stack seen as one map. */
  function Flatten(stack: seq<Overlay>): Overlay {
    if stack == [] then map[] else Flatten(stack[1..]) + stack[0]
  }

  function Get(m: Overlay, key: Key): Option<Value> {
    if key in m then Some(m[key]) else None
  }

  /** A match is found exactly at the topmost overlay that binds the key. */
  lemma {:induction false} FirstMatchIsTopmost(stack: seq<Overlay>, key: Key, v: Value)
    ensures FirstMatch(stack, key) == Some(v) <==>
            exists i :: 0 <= i < |stack| && Get(stack[i], key) == Some(v) &&
                        forall j :: 0 <= j < i ==> key !in stack[j]
  {
    if stack != [] {
      var rest := stack[1..];
      FirstMatchIsTopmost(rest, key, v);
      if key !in stack[0] {
        if FirstMatch(rest, key) == Some(v) {
          var i :| 0 <= i < |rest| && Get(rest[i], key) == Some(v) && forall j :: 0 <= j < i ==> key !in rest[j];
          assert Get(stack[i + 1], key) == Some(v);
          assert forall j :: 0 <= j < i + 1 ==> key !in stack[j] by {
            assert forall j :: 0 < j < i + 1 ==> stack[j] == rest[j - 1];
          }
        }
        if i :| 0 <= i < |stack| && Get(stack[i], key) == Some(v) && forall j :: 0 <= j < i ==> key !in stack[j] {
          assert Get(rest[i - 1], key) == Some(v);
          assert forall j :: 0 <= j < i - 1 ==> rest[j] == stack[j + 1];
        }
      } else {
        assert Get(stack[0], key) == Some(stack[0][key]);
      }
    }
  }

  /** Flattening keeps every lookup. */
  lemma {:induction false} FlattenLookup(stack: seq<Overlay>, key: Key)
    ensures Get(Flatten(stack), key) == FirstMatch(stack, key)
  {
    if stack != [] {
      FlattenLookup(stack[1..], key);
    }
  }

  lemma {:induction false} FirstMatchAppend(xs: seq<Overlay>, ys: seq<Overlay>, key: Key)
    ensures FirstMatch(xs + ys, key) == OrElse(FirstMatch(xs, key), FirstMatch(ys, key))
  {
    if xs == [] {
      assert xs + ys == ys;
    } else {
      assert (xs + ys)[1..] == xs[1..] + ys;
      FirstMatchAppend(xs[1..], ys, key);
    }
  }

  /** Two maps with the same lookups are the same map. */
  lemma SameLookups(a: Overlay, b: Overlay)
    requires forall k :: Get(a, k) == Get(b, k)
    ensures a == b
  {
    assert forall k :: k in a ==> Get(a, k).Some? && Get(b, k).Some?;
    assert forall k :: k in b ==> Get(a, k).Some? && Get(b, k).Some?;
  }
}
