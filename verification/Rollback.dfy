/** What dropping scope guards restores (dcontext/src/scope.rs, `pop_scope` in dcontext/src/store.rs). */
module Rollback {
  import opened Wrappers
  import opened Overlays
  import opened Scopes
  import Forking

  /** Everything that can happen in one store while a guard of depth `d` is alive and on top of its own scope. */
  predicate StaysAbove(ops: seq<Op>, d: nat) {
    forall i :: 0 <= i < |ops| ==>
      match ops[i]
      case Leave(expected) => expected <= 1 || expected > d
      case _ => InPlace(ops[i])
  }

  predicate InPlace(op: Op) {
    op.Enter? || op.Leave? || op.Write? || op.MergeFrom?
  }

  /** The current values after the writes among `ops`, scopes ignored. */
  function Writes(values: Overlay, ops: seq<Op>): Overlay
    decreases ops
  {
    if ops == [] then values
    else
      var rest := ops[1..];
      match ops[0]
      case Write(key, value) => Writes(values[key := value], rest)
      case MergeFrom(source) => Writes(values + Flatten(Visible(source)), rest)
      case _ => Writes(values, rest)
  }

  /** Popping to a level and then further is popping further. */
  lemma {:induction false} PopTwice(s: State, a: nat, b: nat)
    requires Shape(s) && 2 <= b <= a
    ensures Pop(Pop(s, a), b) == Pop(s, b)
    decreases s.depth
  {
    if s.depth >= a {
      PopWhileShape(s, a);
      PopTwice(PopOnce(s), a, b);
      assert PopWhile(s, a) == PopWhile(PopOnce(s), a);
      assert PopWhile(s, b) == PopWhile(PopOnce(s), b);
    }
  }

  /** From anywhere above level `d`, an operation that stays above it does not change what `d` uncovers. */
  lemma StepAbove(s: State, cached: set<Key>, op: Op, d: nat)
    requires Shape(s) && 2 <= d <= s.depth && d <= MAX_SCOPE_DEPTH + 1 && StaysAbove([op], d)
    ensures var t := Step(s, cached, op); Shape(t) && t.depth >= d && Pop(t, d) == Pop(s, d)
  {
    StepShape(s, cached, op);
    assert [op][0] == op;
    match op
    case Enter(name) =>
      assert PopOnce(Push(s, cached, name)) == s;
    case Leave(expected) =>
      if expected > d {
        PopWhileShape(s, expected);
        PopTwice(s, expected, d);
      }
    case Write(key, value) => OverwrittenAbove(s, s.currentValues[key := value], d);
    case MergeFrom(source) => OverwrittenAbove(s, s.currentValues + Flatten(Visible(source)), d);
  }

  lemma {:induction false} OverwrittenAbove(s: State, values: Overlay, d: nat)
    requires Shape(s) && 2 <= d <= s.depth && d <= MAX_SCOPE_DEPTH + 1
    ensures Pop(s.(currentValues := values), d) == Pop(s, d)
    decreases s.depth
  {
    if IsDead(s.depth) {
      OverwrittenAbove(PopOnce(s), values, d);
      assert PopOnce(s.(currentValues := values)) == PopOnce(s).(currentValues := values);
    } else {
      assert PopOnce(s.(currentValues := values)) == PopOnce(s);
    }
  }

  lemma {:induction false} RunAbove(s: State, cached: set<Key>, ops: seq<Op>, d: nat)
    requires Shape(s) && 2 <= d <= s.depth && d <= MAX_SCOPE_DEPTH + 1 && StaysAbove(ops, d)
    ensures var t := Run(s, cached, ops); t.depth >= d && Pop(t, d) == Pop(s, d)
    decreases ops
  {
    if ops != [] {
      StepAbove(s, cached, ops[0], d);
      RunAbove(Step(s, cached, ops[0]), cached, ops[1..], d);
    }
  }

  /** Above the limit nothing but the depth and the current values moves. */
  lemma {:induction false} RunDead(s: State, cached: set<Key>, ops: seq<Op>, d: nat)
    requires Shape(s) && IsDead(d) && d <= s.depth && StaysAbove(ops, d)
    ensures var t := Run(s, cached, ops);
            t.depth >= d && t == s.(depth := t.depth, currentValues := Writes(s.currentValues, ops))
    decreases ops
  {
    if ops != [] {
      var t := Step(s, cached, ops[0]);
      StepShape(s, cached, ops[0]);
      if ops[0].Leave? && ops[0].expected > 1 {
        PopDead(s, ops[0].expected);
      }
      RunDead(t, cached, ops[1..], d);
    }
  }

  lemma {:induction false} PopDead(s: State, expected: nat)
    requires Shape(s) && IsDead(expected)
    ensures Pop(s, expected) == s.(depth := if s.depth >= expected then expected - 1 else s.depth)
    decreases s.depth
  {
    if s.depth >= expected {
      PopDead(PopOnce(s), expected);
      assert Pop(PopOnce(s), expected) == PopWhile(PopOnce(s), expected);
    }
  }

  /**
   Dropping a guard after anything that stayed above its level (leaked and dead scopes included)
   gives back the store from before its push, in every field; only a dead guard lets writes through,
   and exactly the writes made since.
   */
  lemma ExactRollback(s: State, cached: set<Key>, name: Option<Name>, ops: seq<Op>)
    requires Shape(s) && StaysAbove(ops, s.depth + 1)
    ensures Pop(Run(Push(s, cached, name), cached, ops), s.depth + 1)
         == if IsDead(s.depth + 1) then s.(currentValues := Writes(s.currentValues, ops)) else s
  {
    var d, pushed := s.depth + 1, Push(s, cached, name);
    StepShape(s, cached, Enter(name));
    if IsDead(d) {
      RunDead(pushed, cached, ops, d);
      var t := Run(pushed, cached, ops);
      ReachableShape(pushed, cached, ops);
      PopDead(t, d);
    } else {
      RunAbove(pushed, cached, ops, d);
      assert PopOnce(pushed) == s;
      assert PopWhile(pushed, d) == PopWhile(s, d) == s;
    }
  }

  // ---- A dead scope ----

  /** `n` scopes entered, none left. */
  function Entries(n: nat): seq<Op> {
    seq(n, _ => Enter(None))
  }

  lemma {:induction false} EntriesReach(s: State, n: nat)
    ensures Run(s, {}, Entries(n)).depth == s.depth + n
    decreases n
  {
    if n > 0 {
      assert Entries(n)[1..] == Entries(n - 1);
      EntriesReach(Push(s, {}, None), n - 1);
    }
  }

  lemma {:induction false} EntriesBindNothing(s: State, n: nat, key: Key)
    requires Shape(s) && Lookup(s, key) == None
    ensures Lookup(Run(s, {}, Entries(n)), key) == None
    decreases n
  {
    if n > 0 {
      assert Entries(n)[1..] == Entries(n - 1);
      StepShape(s, {}, Enter(None));
      Forking.PushKeepsLookups(s, {}, None);
      EntriesBindNothing(Push(s, {}, None), n - 1, key);
    }
  }

  /** After 1024 entries, each of them a real scope, the next is dead: a value written in it outlives its guard. */
  lemma DeadScopeLeaks(key: Key, value: Value)
    ensures var s := Run(New(), {}, Entries(MAX_SCOPE_DEPTH));
            var left := Pop(Run(Push(s, {}, Some("dead")), {}, [Write(key, value)]), s.depth + 1);
            && s.depth == 1025 == |LocalOverlays(s)|
            && Lookup(s, key) == None
            && left == Set(s, key, value)
            && Lookup(left, key) == Some(value)
  {
    var s, write := Run(New(), {}, Entries(MAX_SCOPE_DEPTH)), [Write(key, value)];
    EntriesReach(New(), MAX_SCOPE_DEPTH);
    ReachableShape(New(), {}, Entries(MAX_SCOPE_DEPTH));
    ReachableStores({}, Entries(MAX_SCOPE_DEPTH));
    assert FirstMatch(Visible(New())[1..], key) == None;
    EntriesBindNothing(New(), MAX_SCOPE_DEPTH, key);
    assert write[1..] == [];
    ExactRollback(s, {}, Some("dead"), write);
    assert Writes(s.currentValues, write) == Writes(s.currentValues[key := value], write[1..]);
  }

  // ---- Guards dropped in any order ----

  /** Guards of these depths dropped one after the other. */
  function DropAll(s: State, guards: seq<nat>): State
    decreases guards
  {
    if guards == [] then s else DropAll(Pop(s, guards[0]), guards[1..])
  }

  predicate IsLeast(least: nat, guards: seq<nat>) {
    least in guards && forall g :: g in guards ==> least <= g
  }

  /** Two drops in either order amount to the lower one. */
  lemma PopEitherOrder(s: State, a: nat, b: nat)
    requires Shape(s) && a >= 2 && b >= 2
    ensures Pop(Pop(s, a), b) == Pop(s, if a <= b then a else b)
  {
    if a <= b {
      PopWhileShape(s, a);
    } else {
      PopTwice(s, a, b);
    }
  }

  /** Dropping guards in any order is one pop to the lowest of them. */
  lemma {:induction false} DropInAnyOrder(s: State, guards: seq<nat>, least: nat)
    requires Shape(s) && IsLeast(least, guards) && least >= 2
    ensures DropAll(s, guards) == Pop(s, least)
    ensures DropAll(s, guards).depth == if s.depth >= least then least - 1 else s.depth
    decreases |guards|
  {
    PopWhileShape(s, least);
    var first, rest := guards[0], guards[1..];
    assert guards == [first] + rest && first in guards;
    assert forall g :: g in rest ==> g in guards;
    if rest != [] {
      var low := Least(rest);
      PopWhileShape(s, first);
      DropInAnyOrder(Pop(s, first), rest, low);
      PopEitherOrder(s, first, low);
      assert least == if first <= low then first else low;
    }
  }

  lemma {:induction false} Least(guards: seq<nat>) returns (least: nat)
    requires guards != []
    ensures IsLeast(least, guards)
  {
    least := guards[0];
    if |guards| > 1 {
      var low := Least(guards[1..]);
      assert guards == [guards[0]] + guards[1..];
      least := if low < least then low else least;
    }
  }

  /** Any two orders of dropping the same guards end in the same store. */
  lemma DropOrderIrrelevant(s: State, guards: seq<nat>, permuted: seq<nat>)
    requires Shape(s) && multiset(guards) == multiset(permuted) && forall g :: g in guards ==> g >= 2
    ensures DropAll(s, guards) == DropAll(s, permuted)
  {
    assert forall g :: g in guards <==> g in multiset(guards);
    assert forall g :: g in permuted <==> g in multiset(permuted);
    if guards != [] {
      var least := Least(guards);
      assert least in permuted;
      DropInAnyOrder(s, guards, least);
      DropInAnyOrder(s, permuted, least);
    }
  }

  // ---- Which scope a guard closes ----

  /** A store with a serial number, never used twice, for each of its scopes, root first. */
  datatype Tracked = Tracked(state: State, serials: seq<nat>, next: nat)

  predicate TrackedShape(t: Tracked) {
    Shape(t.state) && |t.serials| == t.state.depth && forall n :: n in t.serials ==> n < t.next
  }

  function TrackedStep(t: Tracked, cached: set<Key>, op: Op): Tracked
    requires TrackedShape(t) && InPlace(op)
    ensures TrackedShape(TrackedStep(t, cached, op))
  {
    StepShape(t.state, cached, op);
    var s := Step(t.state, cached, op);
    match op
    case Enter(_) => Tracked(s, t.serials + [t.next], t.next + 1)
    case Leave(expected) =>
      if 2 <= expected <= t.state.depth then
        PopWhileShape(t.state, expected);
        var kept := t.serials[..expected - 1];
        assert forall n :: n in kept ==> n in t.serials;
        assert s == PopWhile(t.state, expected);
        Tracked(s, kept, t.next)
      else t
    case _ => t.(state := s)
  }

  function TrackedRun(t: Tracked, cached: set<Key>, ops: seq<Op>): Tracked
    requires TrackedShape(t) && forall op :: op in ops ==> InPlace(op)
    ensures TrackedShape(TrackedRun(t, cached, ops))
    decreases ops
  {
    if ops == [] then t else TrackedRun(TrackedStep(t, cached, ops[0]), cached, ops[1..])
  }

  /** The scope with this serial is the one at depth `d`. */
  predicate IsOpen(t: Tracked, d: nat, serial: nat) {
    0 < d <= |t.serials| && t.serials[d - 1] == serial
  }

  lemma {:induction false} NeverReopened(t: Tracked, cached: set<Key>, ops: seq<Op>, serial: nat)
    requires TrackedShape(t) && forall op :: op in ops ==> InPlace(op)
    requires serial !in t.serials && serial < t.next
    ensures serial !in TrackedRun(t, cached, ops).serials
    decreases ops
  {
    if ops != [] {
      NeverReopened(TrackedStep(t, cached, ops[0]), cached, ops[1..], serial);
    }
  }

  lemma {:induction false} OpenScope(t: Tracked, cached: set<Key>, ops: seq<Op>, d: nat, serial: nat)
    requires TrackedShape(t) && forall op :: op in ops ==> InPlace(op)
    requires d >= 2 && IsOpen(t, d, serial) && forall i :: 0 <= i < d - 1 ==> t.serials[i] != serial
    ensures IsOpen(TrackedRun(t, cached, ops), d, serial) <==> StaysAbove(ops, d)
    decreases ops
  {
    assert serial in t.serials;
    if ops != [] {
      var next, rest := TrackedStep(t, cached, ops[0]), ops[1..];
      if StaysAbove([ops[0]], d) {
        assert [ops[0]][0] == ops[0];
        OpenScope(next, cached, rest, d, serial);
        assert StaysAbove(ops, d) <==> StaysAbove(rest, d) by {
          assert forall i :: 0 <= i < |rest| ==> ops[i + 1] == rest[i];
          assert forall i :: 1 <= i < |ops| ==> ops[i] == rest[i - 1];
        }
      } else {
        assert serial !in next.serials;
        NeverReopened(next, cached, rest, serial);
        assert !StaysAbove(ops, d);
      }
    }
  }

  /**
   A depth names a level, not a scope: after any run, dropping the guard of a push closes the very
   scope that push opened if and only if no pop in between went to its depth or lower.
   */
  lemma GuardClosesItsOwnScope(t: Tracked, cached: set<Key>, name: Option<Name>, ops: seq<Op>)
    requires TrackedShape(t) && forall op :: op in ops ==> InPlace(op)
    ensures var d := t.state.depth + 1;
            IsOpen(TrackedRun(TrackedStep(t, cached, Enter(name)), cached, ops), d, t.next) <==> StaysAbove(ops, d)
  {
    assert forall i :: 0 <= i < |t.serials| ==> t.serials[i] in t.serials;
    OpenScope(TrackedStep(t, cached, Enter(name)), cached, ops, t.state.depth + 1, t.next);
  }

  /** A depth is reused: leaving level 2 and entering again puts another scope where the first guard points. */
  lemma DepthIsReused()
    ensures exists ops: seq<Op> ::
      var first := Push(New(), {}, Some("first"));
      var t := Run(first, {}, ops);
      t.depth == first.depth && t.currentName == Some("second") && Pop(t, first.depth) == New()
  {
    var first := Push(New(), {}, Some("first"));
    var ops := [Leave(2), Enter(Some("second"))];
    assert PopOnce(first) == New();
    var t := Push(New(), {}, Some("second"));
    assert Run(first, {}, ops) == t by {
      assert ops[1..] == [Enter(Some("second"))] && ops[1..][1..] == [];
      assert Step(first, {}, ops[0]) == New();
      assert Step(New(), {}, ops[1]) == t;
      assert Run(New(), {}, ops[1..]) == Run(t, {}, ops[1..][1..]);
    }
    assert PopOnce(t) == New();
  }
}
