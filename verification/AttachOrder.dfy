/**
 Nested attach guards dropped in every order (dcontext/src/attach.rs:35-41): each drop overwrites the
 cell with what its own guard saved, so the guard dropped last decides what is left.
 */
module AttachOrder {
  import opened Wrappers
  import Scopes
  import opened Cells

  /** The store an attach puts in the cell: its identity, and its value made from the current one. */
  datatype Attached = Attached(id: StoreId, make: Option<Scopes.State> -> Scopes.State)

  function StoreMade(cell: Option<Live>, a: Attached): Option<Live> {
    Some(Live(a.id, a.make(StateOf(cell))))
  }

  /** One attach after the other on a thread. */
  function Attaches(th: ThreadId, stores: seq<Attached>): seq<Event>
    decreases stores
  {
    if stores == [] then [] else [Event(th, BeginAttach(stores[0].id, stores[0].make))] + Attaches(th, stores[1..])
  }

  /** What their guards save, outermost first: the cell before the first attach, then each store but the last. */
  function Saved(cell: Option<Live>, stores: seq<Attached>): (saved: seq<Option<Live>>)
    ensures |saved| == |stores|
    decreases stores
  {
    if stores == [] then [] else [cell] + Saved(StoreMade(cell, stores[0]), stores[1..])
  }

  /** The frames of guards that saved these, outermost first. */
  function Guards(saved: seq<Option<Live>>): (frames: seq<Frame>)
    ensures |frames| == |saved| && forall i :: 0 <= i < |saved| ==> frames[i] == Attach(saved[i])
  {
    seq(|saved|, i requires 0 <= i < |saved| => Attach(saved[i]))
  }

  function WithThread(w: World, th: ThreadId, t: Thread): World {
    w.(threads := w.threads[th := t])
  }

  lemma ThreadTwice(w: World, th: ThreadId, a: Thread, b: Thread)
    ensures WithThread(WithThread(w, th, a), th, b) == WithThread(w, th, b)
  {
    assert w.threads[th := a][th := b] == w.threads[th := b];
  }

  lemma {:induction false} SavedAt(cell: Option<Live>, stores: seq<Attached>, i: nat)
    requires i < |stores|
    ensures i == 0 ==> Saved(cell, stores)[i] == cell
    ensures i > 0 ==> Saved(cell, stores)[i].Some? && Saved(cell, stores)[i].value.id == stores[i - 1].id
    decreases stores
  {
    if i > 0 {
      SavedAt(StoreMade(cell, stores[0]), stores[1..], i - 1);
    }
  }

  /** The store of the last attach. */
  function LastMade(cell: Option<Live>, stores: seq<Attached>): Option<Live>
    decreases stores
  {
    if stores == [] then cell else LastMade(StoreMade(cell, stores[0]), stores[1..])
  }

  lemma MoreGuards(below: seq<Frame>, saved: Option<Live>, more: seq<Option<Live>>)
    ensures below + [Attach(saved)] + Guards(more) == below + Guards([saved] + more)
  {
  }

  lemma {:induction false} AttachAll(w: World, th: ThreadId, stores: seq<Attached>)
    requires th in w.threads
    ensures Legal(w, Attaches(th, stores))
    ensures var t := w.threads[th];
            Run(w, Attaches(th, stores))
            == WithThread(w, th, Thread(LastMade(t.cell, stores), t.frames + Guards(Saved(t.cell, stores))))
    decreases stores
  {
    var t := w.threads[th];
    if stores == [] {
      assert t.frames + Guards([]) == t.frames && w.threads[th := t] == w.threads;
    } else {
      var rest, made := stores[1..], StoreMade(t.cell, stores[0]);
      var events := Attaches(th, stores);
      var e := Event(th, BeginAttach(stores[0].id, stores[0].make));
      assert events[0] == e && events[1..] == Attaches(th, rest);
      var t1 := Thread(made, t.frames + [Attach(t.cell)]);
      assert Next(w, e) == WithThread(w, th, t1);
      AttachAll(WithThread(w, th, t1), th, rest);
      MoreGuards(t.frames, t.cell, Saved(made, rest));
      ThreadTwice(w, th, t1, Thread(LastMade(made, rest), t1.frames + Guards(Saved(made, rest))));
    }
  }

  // ---- Dropping them ----

  /** The same guards, in some order. */
  predicate SameGuards(left: seq<nat>, order: seq<nat>) {
    multiset(left) == multiset(order)
  }

  function PlaceOf(left: seq<nat>, guard: nat): (p: nat)
    requires guard in left
    ensures p < |left| && left[p] == guard
  {
    if left[0] == guard then 0 else 1 + PlaceOf(left[1..], guard)
  }

  lemma OneLess(s: seq<nat>, p: nat)
    requires p < |s|
    ensures multiset(Without(s, p)) == multiset(s) - multiset{s[p]}
  {
    assert s == s[..p] + ([s[p]] + s[p + 1..]);
    assert multiset(s) == multiset(s[..p]) + (multiset{s[p]} + multiset(s[p + 1..]));
  }

  lemma DropOne(left: seq<nat>, order: seq<nat>)
    requires SameGuards(left, order) && order != []
    ensures |left| == |order| && order[0] in left
    ensures SameGuards(Without(left, PlaceOf(left, order[0])), order[1..])
  {
    assert |multiset(left)| == |multiset(order)|;
    assert order[0] in multiset(order);
    OneLess(left, PlaceOf(left, order[0]));
    OneLess(order, 0);
    assert Without(order, 0) == order[1..];
  }

  /** How many guards the owner of a stack holds. */
  function OwnGuards(frames: seq<Frame>): nat {
    StartOf(frames);
    |frames| - Start(frames)
  }

  /** Dropping guards in this order, when `left` are still held above `base` others of the same owner. */
  function Drops(th: ThreadId, base: nat, left: seq<nat>, order: seq<nat>): seq<Event>
    requires SameGuards(left, order)
    decreases order
  {
    if order == [] then []
    else
      DropOne(left, order);
      var p := PlaceOf(left, order[0]);
      [Event(th, EndAttach(base + p))] + Drops(th, base, Without(left, p), order[1..])
  }

  predicate Among(left: seq<nat>, n: nat) {
    forall i :: 0 <= i < |left| ==> left[i] < n
  }

  /** What the guards that are left have saved. */
  function SavedBy(saved: seq<Option<Live>>, left: seq<nat>): (held: seq<Option<Live>>)
    requires Among(left, |saved|)
    ensures |held| == |left| && forall i :: 0 <= i < |left| ==> held[i] == saved[left[i]]
  {
    seq(|left|, i requires 0 <= i < |left| => saved[left[i]])
  }

  /** One drop, over the frames `below`: the cell gets what the guard saved, the others stay. */
  lemma DropStep(w: World, th: ThreadId, below: seq<Frame>, held: seq<Option<Live>>, p: nat)
    requires th in w.threads && w.threads[th].frames == below + Guards(held) && p < |held|
    ensures var e := Event(th, EndAttach(OwnGuards(below) + p));
            Enabled(w, e) && Next(w, e) == WithThread(w, th, Thread(held[p], below + Guards(Without(held, p))))
  {
    GuardTaken(below, held, p);
  }

  lemma GuardTaken(below: seq<Frame>, held: seq<Option<Live>>, p: nat)
    requires p < |held|
    ensures var frames, i := below + Guards(held), |below| + p;
            && Start(frames) + (OwnGuards(below) + p) == i < |frames|
            && frames[i].prev == held[p]
            && Without(frames, i) == below + Guards(Without(held, p))
  {
    StartOf(below);
    StartIs(below + Guards(held), Start(below));
    assert Without(Guards(held), p) == Guards(Without(held, p));
    assert Without(below + Guards(held), |below| + p) == below + Without(Guards(held), p);
  }

  /** The first of the drops, and the guards left after it. */
  lemma DropFirst(w: World, th: ThreadId, below: seq<Frame>, saved: seq<Option<Live>>, left: seq<nat>, order: seq<nat>)
    returns (e: Event, rest: seq<nat>)
    requires SameGuards(left, order) && order != [] && Among(left, |saved|)
    requires th in w.threads && w.threads[th].frames == below + Guards(SavedBy(saved, left))
    ensures SameGuards(rest, order[1..]) && Among(rest, |saved|) && order[0] < |saved|
    ensures Drops(th, OwnGuards(below), left, order) == [e] + Drops(th, OwnGuards(below), rest, order[1..])
    ensures Enabled(w, e)
    ensures Next(w, e) == WithThread(w, th, Thread(saved[order[0]], below + Guards(SavedBy(saved, rest))))
  {
    DropOne(left, order);
    var p, held := PlaceOf(left, order[0]), SavedBy(saved, left);
    e, rest := Event(th, EndAttach(OwnGuards(below) + p)), Without(left, p);
    SavedByRest(saved, left, p);
    DropStep(w, th, below, held, p);
    assert held[p] == saved[order[0]];
  }

  lemma SavedByRest(saved: seq<Option<Live>>, left: seq<nat>, p: nat)
    requires Among(left, |saved|) && p < |left|
    ensures Among(Without(left, p), |saved|)
    ensures SavedBy(saved, Without(left, p)) == Without(SavedBy(saved, left), p)
  {
  }

  lemma {:induction false} DropAll(w: World, th: ThreadId, below: seq<Frame>, saved: seq<Option<Live>>,
                                   left: seq<nat>, order: seq<nat>)
    requires SameGuards(left, order) && order != [] && Among(left, |saved|)
    requires th in w.threads && w.threads[th].frames == below + Guards(SavedBy(saved, left))
    ensures order[|order| - 1] < |saved|
    ensures Legal(w, Drops(th, OwnGuards(below), left, order))
    ensures Run(w, Drops(th, OwnGuards(below), left, order))
         == WithThread(w, th, Thread(saved[order[|order| - 1]], below))
    decreases order
  {
    var e, rest := DropFirst(w, th, below, saved, left, order);
    var t1 := Thread(saved[order[0]], below + Guards(SavedBy(saved, rest)));
    var next, later := WithThread(w, th, t1), Drops(th, OwnGuards(below), rest, order[1..]);
    assert ([e] + later)[1..] == later;
    if |order| == 1 {
      assert |multiset(rest)| == 0 && later == [];
      assert below + Guards(SavedBy(saved, rest)) == below;
    } else {
      DropAll(next, th, below, saved, rest, order[1..]);
      ThreadTwice(w, th, t1, Thread(saved[order[|order| - 1]], below));
    }
  }

  // ---- Attaching, then dropping ----

  /** The guards 0, 1, .., n - 1, outermost first. */
  function UpTo(n: nat): (r: seq<nat>)
    ensures |r| == n && forall i :: 0 <= i < n ==> r[i] == i
  {
    seq(n, i requires i >= 0 => i)
  }

  /** Attach these stores one inside the other, then drop the guards in this order. */
  function AttachAndDrop(w: World, th: ThreadId, stores: seq<Attached>, order: seq<nat>): seq<Event>
    requires th in w.threads && SameGuards(UpTo(|stores|), order)
  {
    Attaches(th, stores) + Drops(th, OwnGuards(w.threads[th].frames), UpTo(|stores|), order)
  }

  /** The stores attached, and the one in the cell before, are all different. */
  predicate Distinct(cell: Option<Live>, stores: seq<Attached>) {
    && (forall i, j :: 0 <= i < j < |stores| ==> stores[i].id != stores[j].id)
    && (forall i :: 0 <= i < |stores| ==> cell.Some? && stores[i].id != cell.value.id)
  }

  lemma {:induction false} RunThen(w: World, first: seq<Event>, second: seq<Event>)
    requires Legal(w, first) && Legal(Run(w, first), second)
    ensures Legal(w, first + second) && Run(w, first + second) == Run(Run(w, first), second)
    decreases first
  {
    if first == [] {
      assert first + second == second;
    } else {
      assert (first + second)[1..] == first[1..] + second;
      RunThen(Next(w, first[0]), first[1..], second);
    }
  }

  /**
   Nested attach guards may be dropped in any order. Afterwards the thread's stack is as before and
   everything outside the thread is untouched, but the cell holds what the guard dropped last had saved:
   the original store is back if and only if the outermost guard was dropped last.
   */
  lemma LastDropDecides(w: World, th: ThreadId, stores: seq<Attached>, order: seq<nat>)
    requires th in w.threads && stores != [] && SameGuards(UpTo(|stores|), order)
    ensures |order| == |stores| && order[|order| - 1] < |stores|
    ensures Legal(w, AttachAndDrop(w, th, stores, order))
    ensures var t, last := w.threads[th], order[|order| - 1];
            var left := Saved(t.cell, stores)[last];
            && Run(w, AttachAndDrop(w, th, stores, order)) == WithThread(w, th, Thread(left, t.frames))
            && (Distinct(t.cell, stores) ==> (left == t.cell <==> last == 0))
  {
    var t := w.threads[th];
    var saved, all := Saved(t.cell, stores), UpTo(|stores|);
    var attached, t1 := Attaches(th, stores), Thread(LastMade(t.cell, stores), t.frames + Guards(saved));
    assert |multiset(all)| == |multiset(order)|;
    AttachAll(w, th, stores);
    assert SavedBy(saved, all) == saved;
    DropAll(WithThread(w, th, t1), th, t.frames, saved, all, order);
    RunThen(w, attached, Drops(th, OwnGuards(t.frames), all, order));
    SavedAt(t.cell, stores, order[|order| - 1]);
    ThreadTwice(w, th, t1, Thread(saved[order[|order| - 1]], t.frames));
  }

  /** Two guards, the outer dropped first: the first attached store is left in the cell, the original is nowhere. */
  lemma OuterFirstLosesOriginal()
    ensures exists w: World, stores: seq<Attached> ::
              && |stores| == 2 && 0 in w.threads && SameGuards(UpTo(2), [0, 1])
              && Distinct(w.threads[0].cell, stores) && Holds(w, 7)
              && Legal(w, AttachAndDrop(w, 0, stores, [0, 1]))
              && var after := Run(w, AttachAndDrop(w, 0, stores, [0, 1]));
                 IdAt(after, Cell(0)) == Some(stores[0].id) && !Holds(after, 7)
  {
    var w := World(map[0 := Thread(Some(Live(7, Scopes.New())), [])], map[]);
    var stores := [Attached(8, _ => Scopes.New()), Attached(9, _ => Scopes.New())];
    assert UpTo(2) == [0, 1];
    LastDropDecides(w, 0, stores, [0, 1]);
    SavedAt(w.threads[0].cell, stores, 1);
    assert IdAt(w, Cell(0)) == Some(7);
    var after := Run(w, AttachAndDrop(w, 0, stores, [0, 1]));
    assert IdAt(after, Cell(0)) == Some(stores[0].id);
    assert forall p :: IdAt(after, p).Some? ==> p == Cell(0);
  }
}
