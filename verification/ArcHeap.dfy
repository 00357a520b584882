/**
 Frozen scopes as they are shared: nodes with strong counts, and stores holding references to them.
 `pop_scope` moves a node's contents out when it holds the only reference and copies them otherwise
 (dcontext/src/store.rs:219-242); a fork shares its parent's chain (101-129); dropping a store lets
 go of both its references. Whatever is shared, every store behaves as if it were alone.
 */
module ArcHeap {
  import opened Wrappers
  import opened Overlays
  import opened Scopes

  type NodeId = nat
  type StoreId = nat

  datatype Node = Node(
    strong: nat,
    name: Option<Name>,
    values: Overlay,
    parent: Option<NodeId>,
    depth: nat,
    remoteChain: seq<Name>,
    remoteChainBaseDepth: nat,
    savedScopeBarrier: Option<nat>)

  /** One of the two fields of a store that can hold a reference: its chain or its frozen parent. */
  datatype Holder = Holder(store: StoreId, frozen: bool)

  type Nodes = map<NodeId, Node>
  type References = map<Holder, NodeId>

  /** The allocated nodes, who refers to them, and each live store's remaining fields. */
  datatype Heap = Heap(nodes: Nodes, held: References, own: map<StoreId, State>, next: NodeId)

  // ---- Counting references ----

  function HoldersOf(held: References, i: NodeId): set<Holder> {
    set h | h in held && held[h] == i
  }

  function ChildrenOf(nodes: Nodes, i: NodeId): set<NodeId> {
    set j | j in nodes && nodes[j].parent == Some(i)
  }

  function CountOf(nodes: Nodes, held: References, i: NodeId): nat {
    |HoldersOf(held, i)| + |ChildrenOf(nodes, i)|
  }

  function ParentOf(nodes: Nodes, i: NodeId): Option<NodeId> {
    if i in nodes then nodes[i].parent else None
  }

  /** Parents exist and are older, so chains end. */
  ghost predicate Linked(nodes: Nodes) {
    forall i {:trigger ParentOf(nodes, i)} :: ParentOf(nodes, i).Some? ==>
      ParentOf(nodes, i).value < i && ParentOf(nodes, i).value in nodes
  }

  predicate NoDangling(nodes: Nodes, held: References) {
    forall h :: h in held ==> held[h] in nodes
  }

  /** A node's strong count is the number of references to it, and no node is kept without one. */
  ghost predicate CountsExact(nodes: Nodes, held: References) {
    forall i {:trigger CountOf(nodes, held, i)} ::
      i in nodes ==> nodes[i].strong == CountOf(nodes, held, i) && nodes[i].strong > 0
  }

  ghost predicate Counted(nodes: Nodes, held: References) {
    Linked(nodes) && NoDangling(nodes, held) && CountsExact(nodes, held)
  }

  ghost predicate Inv(h: Heap) {
    && Counted(h.nodes, h.held)
    && (forall i :: i in h.nodes ==> i < h.next)
    && (forall r :: r in h.held ==> r.store in h.own)
  }

  // ---- What a store stands for ----

  /** The chain that starts at a reference. */
  function Unfold(nodes: Nodes, c: Option<NodeId>): Option<ScopeNode>
    decreases if c.Some? then c.value + 1 else 0
  {
    if c.None? || c.value !in nodes then None
    else
      var n := nodes[c.value];
      var parent := if n.parent.Some? && n.parent.value < c.value then Unfold(nodes, n.parent) else None;
      Some(ScopeNode(n.name, n.values, parent, n.depth, n.remoteChain, n.remoteChainBaseDepth, n.savedScopeBarrier))
  }

  function Reference(held: References, h: Holder): Option<NodeId> {
    if h in held then Some(held[h]) else None
  }

  function View(h: Heap, s: StoreId): State
    requires s in h.own
  {
    h.own[s].(scopeChain := Unfold(h.nodes, Reference(h.held, Holder(s, false))),
              frozenParent := Unfold(h.nodes, Reference(h.held, Holder(s, true))))
  }

  /** Only the count may differ. */
  predicate SameContents(a: Node, b: Node) {
    a.(strong := 0) == b.(strong := 0)
  }

  predicate NodesKept(a: Nodes, b: Nodes) {
    forall j :: j in a ==> j in b && SameContents(a[j], b[j])
  }

  /** A heap that keeps some nodes' contents keeps everything reached from them. */
  lemma {:induction false} UnfoldFrame(a: Nodes, b: Nodes, c: Option<NodeId>)
    requires Linked(a) && NodesKept(a, b) && (c.Some? ==> c.value in a)
    ensures Unfold(a, c) == Unfold(b, c)
    decreases if c.Some? then c.value + 1 else 0
  {
    if c.Some? {
      UnfoldFrame(a, b, ParentOf(a, c.value));
    }
  }

  predicate OthersKept(h: Heap, h': Heap, s: StoreId) {
    forall t :: t in h.own && t != s ==> t in h'.own && View(h', t) == View(h, t)
  }

  /** If only store `s` changed its fields and no node that both heaps have changed, no other store changed. */
  lemma KeepOthers(h: Heap, h': Heap, s: StoreId)
    requires Inv(h) && Inv(h') && (NodesKept(h.nodes, h'.nodes) || NodesKept(h'.nodes, h.nodes))
    requires forall t :: t in h.own && t != s ==> t in h'.own && h'.own[t] == h.own[t]
    requires forall r: Holder :: r.store != s ==> Reference(h'.held, r) == Reference(h.held, r)
    ensures OthersKept(h, h', s)
  {
    forall t | t in h.own && t != s ensures View(h', t) == View(h, t) {
      SameUnfold(h, h', Holder(t, false));
      SameUnfold(h, h', Holder(t, true));
    }
  }

  lemma SameUnfold(h: Heap, h': Heap, r: Holder)
    requires Inv(h) && Inv(h') && (NodesKept(h.nodes, h'.nodes) || NodesKept(h'.nodes, h.nodes))
    requires Reference(h'.held, r) == Reference(h.held, r)
    ensures Unfold(h.nodes, Reference(h.held, r)) == Unfold(h'.nodes, Reference(h.held, r))
  {
    if NodesKept(h.nodes, h'.nodes) {
      UnfoldFrame(h.nodes, h'.nodes, Reference(h.held, r));
    } else {
      UnfoldFrame(h'.nodes, h.nodes, Reference(h.held, r));
    }
  }

  // ---- How counts move ----

  /** The references after holder `h` let go of what it had and took `c` instead. */
  function Rehold(held: References, h: Holder, c: Option<NodeId>): References {
    if c.Some? then held[h := c.value] else held - {h}
  }

  lemma HoldersAfter(held: References, h: Holder, c: Option<NodeId>, i: NodeId)
    ensures |HoldersOf(Rehold(held, h, c), i)| == |HoldersOf(held, i)|
              + (if c == Some(i) then 1 else 0) - (if Reference(held, h) == Some(i) then 1 else 0)
  {
    var rest := HoldersOf(held, i) - {h};
    assert HoldersOf(Rehold(held, h, c), i) == if c == Some(i) then rest + {h} else rest;
  }

  lemma ChildrenAfterAdd(nodes: Nodes, j: NodeId, n: Node, i: NodeId)
    requires j !in nodes
    ensures |ChildrenOf(nodes[j := n], i)| == |ChildrenOf(nodes, i)| + (if n.parent == Some(i) then 1 else 0)
  {
    assert ChildrenOf(nodes[j := n], i)
        == if n.parent == Some(i) then ChildrenOf(nodes, i) + {j} else ChildrenOf(nodes, i);
  }

  lemma ChildrenAfterRemove(nodes: Nodes, j: NodeId, i: NodeId)
    requires j in nodes
    ensures |ChildrenOf(nodes - {j}, i)| == |ChildrenOf(nodes, i)| - (if nodes[j].parent == Some(i) then 1 else 0)
  {
    assert ChildrenOf(nodes - {j}, i) == ChildrenOf(nodes, i) - {j};
  }

  /** A node with another count. */
  function Recount(nodes: Nodes, i: NodeId, strong: nat): Nodes
    requires i in nodes
  {
    nodes[i := nodes[i].(strong := strong)]
  }

  lemma ChildrenAfterRecount(nodes: Nodes, i: NodeId, strong: nat, j: NodeId)
    requires i in nodes
    ensures ChildrenOf(Recount(nodes, i, strong), j) == ChildrenOf(nodes, j)
  {
  }

  // ---- The Arc operations, each with what it does to the counts ----

  /** `Arc::clone` of an optional reference. */
  function CloneRef(nodes: Nodes, c: Option<NodeId>): Nodes {
    if c.None? || c.value !in nodes then nodes else Recount(nodes, c.value, nodes[c.value].strong + 1)
  }

  lemma Cloning(nodes: Nodes, held: References, h: Holder, c: Option<NodeId>)
    requires Counted(nodes, held) && h !in held && (c.Some? ==> c.value in nodes)
    ensures Counted(CloneRef(nodes, c), Rehold(held, h, c)) && NodesKept(nodes, CloneRef(nodes, c))
  {
    var nodes', held' := CloneRef(nodes, c), Rehold(held, h, c);
    forall i ensures ParentOf(nodes', i) == ParentOf(nodes, i) {}
    forall i | i in nodes'
      ensures CountOf(nodes', held', i) == CountOf(nodes, held, i) + if c == Some(i) then 1 else 0
    {
      HoldersAfter(held, h, c, i);
      if c.Some? { ChildrenAfterRecount(nodes, c.value, nodes[c.value].strong + 1, i); }
    }
  }

  /** A node that does not exist yet is referred to by nothing. */
  lemma Unreferenced(nodes: Nodes, held: References, i: NodeId)
    requires Counted(nodes, held) && i !in nodes
    ensures HoldersOf(held, i) == {} && ChildrenOf(nodes, i) == {}
  {
    forall k | k in nodes ensures k !in ChildrenOf(nodes, i) {
      assert ParentOf(nodes, k) == nodes[k].parent;
    }
  }

  lemma FreezingCount(nodes: Nodes, held: References, h: Holder, i: NodeId, n: Node, j: NodeId)
    requires Counted(nodes, held) && i !in nodes && n.strong == 1 && n.parent == Reference(held, h)
    requires j == i || j in nodes
    ensures nodes[i := n][j].strong == CountOf(nodes[i := n], held[h := i], j) > 0
  {
    HoldersAfter(held, h, Some(i), j);
    ChildrenAfterAdd(nodes, i, n, j);
    if j == i {
      Unreferenced(nodes, held, i);
    } else {
      assert nodes[j].strong == CountOf(nodes, held, j);
    }
  }

  /** `Arc::new` of a node that takes over a holder's reference as its parent; the holder gets the new node. */
  lemma Freezing(nodes: Nodes, held: References, h: Holder, i: NodeId, n: Node)
    requires Counted(nodes, held) && (forall j :: j in nodes ==> j < i)
    requires n.strong == 1 && n.parent == Reference(held, h)
    ensures Counted(nodes[i := n], held[h := i]) && NodesKept(nodes, nodes[i := n])
  {
    var nodes' := nodes[i := n];
    forall j ensures ParentOf(nodes', j) == if j == i then n.parent else ParentOf(nodes, j) {}
    forall j | j in nodes' ensures nodes'[j].strong == CountOf(nodes', held[h := i], j) && nodes'[j].strong > 0 {
      FreezingCount(nodes, held, h, i, n, j);
    }
  }

  /** If the reference we hold is a node's only one, nothing else points to it. */
  lemma OnlyReference(nodes: Nodes, held: References, h: Holder)
    requires Counted(nodes, held) && h in held && nodes[held[h]].strong <= 1
    ensures forall g :: g in held && held[g] == held[h] ==> g == h
    ensures forall j :: j in nodes ==> nodes[j].parent != Some(held[h])
  {
    var i := held[h];
    assert CountOf(nodes, held, i) == 1;
    assert HoldersOf(held, i) >= {h};
    assert |HoldersOf(held, i) - {h}| == |HoldersOf(held, i)| - 1;
    assert HoldersOf(held, i) - {h} == {} && ChildrenOf(nodes, i) == {};
    forall g | g in held && held[g] == i ensures g == h { assert g in HoldersOf(held, i); }
    forall j | j in nodes ensures nodes[j].parent != Some(i) { assert j !in ChildrenOf(nodes, i); }
  }

  /** `Arc::try_unwrap` succeeding: the node is gone, and its reference to its parent is ours. */
  lemma Unwrapping(nodes: Nodes, held: References, h: Holder)
    requires Counted(nodes, held) && h in held && nodes[held[h]].strong <= 1
    ensures var nodes' := nodes - {held[h]};
            Counted(nodes', Rehold(held, h, nodes[held[h]].parent)) && NodesKept(nodes', nodes)
  {
    var i, p := held[h], nodes[held[h]].parent;
    var nodes', held' := nodes - {i}, Rehold(held, h, p);
    OnlyReference(nodes, held, h);
    forall j ensures ParentOf(nodes', j) == if j == i then None else ParentOf(nodes, j) {}
    assert ParentOf(nodes, i) == p;
    forall j | j in nodes' ensures nodes'[j].strong == CountOf(nodes', held', j) && nodes'[j].strong > 0 {
      assert nodes[j].strong == CountOf(nodes, held, j);
      HoldersAfter(held, h, p, j);
      ChildrenAfterRemove(nodes, i, j);
    }
  }

  /** Giving up one of several references. */
  lemma LettingGo(nodes: Nodes, held: References, h: Holder)
    requires Counted(nodes, held) && h in held && nodes[held[h]].strong > 1
    ensures var nodes' := Recount(nodes, held[h], nodes[held[h]].strong - 1);
            Counted(nodes', held - {h}) && NodesKept(nodes', nodes) && NodesKept(nodes, nodes')
  {
    var i := held[h];
    var nodes' := Recount(nodes, i, nodes[i].strong - 1);
    forall j ensures ParentOf(nodes', j) == ParentOf(nodes, j) {}
    forall j | j in nodes' ensures CountOf(nodes', held - {h}, j) == CountOf(nodes, held, j) - if j == i then 1 else 0 {
      HoldersAfter(held, h, None, j);
      ChildrenAfterRecount(nodes, i, nodes[i].strong - 1, j);
    }
  }

  /** Dropping a reference: the last one takes the node with it, and then the node's reference to its parent. */
  function Release(nodes: Nodes, c: Option<NodeId>): Nodes
    decreases |nodes|
  {
    if c.None? || c.value !in nodes then nodes
    else if nodes[c.value].strong > 1 then Recount(nodes, c.value, nodes[c.value].strong - 1)
    else
      Fewer(nodes, c.value);
      Release(nodes - {c.value}, nodes[c.value].parent)
  }

  lemma Fewer(nodes: Nodes, i: NodeId)
    requires i in nodes
    ensures |nodes - {i}| < |nodes|
  {
    assert nodes.Keys == (nodes - {i}).Keys + {i};
  }

  lemma {:induction false} Releasing(nodes: Nodes, held: References, h: Holder)
    requires Counted(nodes, held)
    ensures Counted(Release(nodes, Reference(held, h)), held - {h})
    ensures NodesKept(Release(nodes, Reference(held, h)), nodes)
    decreases |nodes|, 1
  {
    if h !in held {
      assert held - {h} == held;
    } else if nodes[held[h]].strong > 1 {
      LettingGo(nodes, held, h);
    } else {
      var i := held[h];
      Unwrapping(nodes, held, h);
      Fewer(nodes, i);
      ReleasingParent(nodes, held, h, i, nodes[i].parent);
    }
  }

  /** The node is gone and its reference to its parent is released in turn. */
  lemma {:induction false} ReleasingParent(nodes: Nodes, held: References, h: Holder, i: NodeId, p: Option<NodeId>)
    requires i in nodes && |nodes - {i}| < |nodes|
    requires Counted(nodes - {i}, Rehold(held, h, p)) && NodesKept(nodes - {i}, nodes)
    ensures Counted(Release(nodes - {i}, p), held - {h}) && NodesKept(Release(nodes - {i}, p), nodes)
    decreases |nodes|, 0
  {
    var rest := Rehold(held, h, p);
    assert rest - {h} == held - {h} && Reference(rest, h) == p;
    Releasing(nodes - {i}, rest, h);
    KeptTwice(Release(nodes - {i}, p), nodes - {i}, nodes);
  }

  // ---- The store operations ----

  /** The current scope as a node, over the store's chain. */
  function Frozen(h: Heap, s: StoreId): Node
    requires s in h.own
  {
    var own := h.own[s];
    Node(1, own.currentName, own.currentValues, Reference(h.held, Holder(s, false)), own.depth, own.remoteChain,
         own.remoteChainBaseDepth, own.scopeBarrier)
  }

  function CreateIn(h: Heap, s: StoreId, values: Overlay, remoteChain: seq<Name>): Heap {
    h.(own := h.own[s := FromValuesWithChain(values, remoteChain)])
  }

  function WriteIn(h: Heap, s: StoreId, values: Overlay): Heap
    requires s in h.own
  {
    h.(own := h.own[s := h.own[s].(currentValues := h.own[s].currentValues + values)])
  }

  function PushIn(h: Heap, s: StoreId, cached: set<Key>, name: Option<Name>): Heap
    requires s in h.own
  {
    var own := h.own[s];
    if IsDead(own.depth + 1) then h.(own := h.own[s := own.(depth := own.depth + 1)])
    else
      var copies := CachedCopies(View(h, s), cached);
      var entered := own.(currentValues := copies, currentName := name, depth := own.depth + 1);
      Heap(h.nodes[h.next := Frozen(h, s)], h.held[Holder(s, false) := h.next], h.own[s := entered], h.next + 1)
  }

  predicate CanPopIn(h: Heap, s: StoreId) {
    s in h.own && h.own[s].depth > 1 && (IsDead(h.own[s].depth) || Holder(s, false) in h.held)
  }

  /** One level: the last reference moves the node's contents out, any other copies them and lets go. */
  function PopOneIn(h: Heap, s: StoreId): Heap
    requires Inv(h) && CanPopIn(h, s)
  {
    var own := h.own[s];
    if IsDead(own.depth) then h.(own := h.own[s := own.(depth := own.depth - 1)])
    else
      var r := Holder(s, false);
      var i := h.held[r];
      var n := h.nodes[i];
      var restored := own.(currentValues := n.values, currentName := n.name, depth := n.depth,
                           remoteChain := n.remoteChain,
                           remoteChainBaseDepth := n.remoteChainBaseDepth, scopeBarrier := n.savedScopeBarrier);
      var nodes := if n.strong <= 1 then h.nodes - {i} else CloneRef(Recount(h.nodes, i, n.strong - 1), n.parent);
      Heap(nodes, Rehold(h.held, r, n.parent), h.own[s := restored], h.next)
  }

  /** The child `t` shares the parent's chain below a freshly frozen copy of its current scope. */
  function ForkIn(h: Heap, s: StoreId, t: StoreId): Heap
    requires Inv(h) && s in h.own
  {
    var own := State(None, map[], None, 1, h.own[s].remoteChain, h.own[s].remoteChainBaseDepth, None, None);
    Heap(CloneRef(h.nodes, Reference(h.held, Holder(s, false)))[h.next := Frozen(h, s)],
         h.held[Holder(t, true) := h.next], h.own[t := own], h.next + 1)
  }

  function DropIn(h: Heap, s: StoreId): Heap {
    var c, f := Holder(s, false), Holder(s, true);
    Heap(Release(Release(h.nodes, Reference(h.held, c)), Reference(h.held, f)), h.held - {c} - {f}, h.own - {s}, h.next)
  }

  // ---- Each keeps the counts, does what it does to a store alone, and leaves every other store as it was ----

  lemma OwnPart(h: Heap, s: StoreId, own: State)
    requires Inv(h)
    ensures var h' := h.(own := h.own[s := own]); Inv(h') && OthersKept(h, h', s)
  {
    KeepOthers(h, h.(own := h.own[s := own]), s);
  }

  lemma CreateCorrect(h: Heap, s: StoreId, values: Overlay, remoteChain: seq<Name>)
    requires Inv(h) && s !in h.own
    ensures var h' := CreateIn(h, s, values, remoteChain);
            Inv(h') && OthersKept(h, h', s) && View(h', s) == FromValuesWithChain(values, remoteChain)
  {
    OwnPart(h, s, FromValuesWithChain(values, remoteChain));
  }

  lemma WriteCorrect(h: Heap, s: StoreId, values: Overlay)
    requires Inv(h) && s in h.own
    ensures var h' := WriteIn(h, s, values);
            && Inv(h') && OthersKept(h, h', s)
            && View(h', s) == View(h, s).(currentValues := View(h, s).currentValues + values)
  {
    OwnPart(h, s, WriteIn(h, s, values).own[s]);
  }

  lemma PushInv(h: Heap, s: StoreId, cached: set<Key>, name: Option<Name>)
    requires Inv(h) && s in h.own
    ensures var h' := PushIn(h, s, cached, name); Inv(h') && NodesKept(h.nodes, h'.nodes)
  {
    if !IsDead(h.own[s].depth + 1) {
      Freezing(h.nodes, h.held, Holder(s, false), h.next, Frozen(h, s));
    }
  }

  /** The new node stands for the frozen current scope. */
  lemma FrozenNode(h: Heap, s: StoreId, nodes: Nodes)
    requires Inv(h) && s in h.own && NodesKept(h.nodes, nodes) && h.next in nodes && nodes[h.next] == Frozen(h, s)
    ensures Unfold(nodes, Some(h.next)) == Some(Freeze(View(h, s)))
  {
    var c := Reference(h.held, Holder(s, false));
    UnfoldFrame(h.nodes, nodes, c);
    assert c.Some? ==> c.value in h.nodes && c.value < h.next;
  }

  lemma PushFields(h: Heap, s: StoreId, cached: set<Key>, name: Option<Name>)
    requires s in h.own
    requires var h', f := PushIn(h, s, cached, name), Holder(s, true);
             && Unfold(h'.nodes, Reference(h'.held, f)) == Unfold(h.nodes, Reference(h.held, f))
             && (if IsDead(h.own[s].depth + 1) then h'.nodes == h.nodes
                 else Unfold(h'.nodes, Some(h.next)) == Some(Freeze(View(h, s))))
    ensures View(PushIn(h, s, cached, name), s) == Push(View(h, s), cached, name)
  {
    var v, v' := View(h, s), View(PushIn(h, s, cached, name), s);
    if IsDead(h.own[s].depth + 1) {
      assert v' == v.(depth := v.depth + 1);
    } else {
      assert v'.scopeChain == Some(Freeze(v));
      assert v'.currentValues == CachedCopies(v, cached);
      assert v' == v.(scopeChain := Some(Freeze(v)), currentValues := CachedCopies(v, cached), currentName := name,
                      depth := v.depth + 1);
    }
  }

  lemma PushCorrect(h: Heap, s: StoreId, cached: set<Key>, name: Option<Name>)
    requires Inv(h) && s in h.own
    ensures var h' := PushIn(h, s, cached, name);
            Inv(h') && OthersKept(h, h', s) && View(h', s) == Push(View(h, s), cached, name)
  {
    var h' := PushIn(h, s, cached, name);
    PushInv(h, s, cached, name);
    KeepOthers(h, h', s);
    SameUnfold(h, h', Holder(s, true));
    if !IsDead(h.own[s].depth + 1) {
      FrozenNode(h, s, h'.nodes);
    }
    PushFields(h, s, cached, name);
  }

  lemma PopOneInv(h: Heap, s: StoreId)
    requires Inv(h) && CanPopIn(h, s)
    ensures var h' := PopOneIn(h, s); Inv(h') && (NodesKept(h.nodes, h'.nodes) || NodesKept(h'.nodes, h.nodes))
  {
    if !IsDead(h.own[s].depth) {
      var r := Holder(s, false);
      if h.nodes[h.held[r]].strong <= 1 {
        Unwrapping(h.nodes, h.held, r);
      } else {
        Copying(h.nodes, h.held, r);
      }
    }
  }

  /** `Arc::try_unwrap` failing: the parent's reference is cloned and the node's is let go. */
  lemma Copying(nodes: Nodes, held: References, h: Holder)
    requires Counted(nodes, held) && h in held && nodes[held[h]].strong > 1
    ensures var p := nodes[held[h]].parent;
            var nodes' := CloneRef(Recount(nodes, held[h], nodes[held[h]].strong - 1), p);
            Counted(nodes', Rehold(held, h, p)) && NodesKept(nodes, nodes')
  {
    var p := nodes[held[h]].parent;
    var counted := Recount(nodes, held[h], nodes[held[h]].strong - 1);
    LettingGo(nodes, held, h);
    assert ParentOf(nodes, held[h]) == p;
    Cloning(counted, held - {h}, h, p);
    assert Rehold(held - {h}, h, p) == Rehold(held, h, p);
    KeptTwice(nodes, counted, CloneRef(counted, p));
  }

  lemma KeptTwice(a: Nodes, b: Nodes, c: Nodes)
    requires NodesKept(a, b) && NodesKept(b, c)
    ensures NodesKept(a, c)
  {
  }

  lemma PopFields(h: Heap, s: StoreId)
    requires Inv(h) && CanPopIn(h, s)
    requires var h', c, f := PopOneIn(h, s), Holder(s, false), Holder(s, true);
             && Unfold(h'.nodes, Reference(h'.held, f)) == Unfold(h.nodes, Reference(h.held, f))
             && Unfold(h'.nodes, Reference(h'.held, c)) == Unfold(h.nodes, Reference(h'.held, c))
    ensures CanPop(View(h, s)) && View(PopOneIn(h, s), s) == PopOnce(View(h, s))
  {
    if !IsDead(h.own[s].depth) {
      var v, i := View(h, s), h.held[Holder(s, false)];
      var p := ParentOf(h.nodes, i);
      assert Reference(PopOneIn(h, s).held, Holder(s, false)) == p;
      assert v.scopeChain.value.parent == Unfold(h.nodes, p);
      assert View(PopOneIn(h, s), s).scopeChain == v.scopeChain.value.parent;
    }
  }

  lemma PopOneKeeps(h: Heap, s: StoreId)
    requires Inv(h) && CanPopIn(h, s)
    ensures Inv(PopOneIn(h, s)) && OthersKept(h, PopOneIn(h, s), s)
  {
    PopOneInv(h, s);
    KeepOthers(h, PopOneIn(h, s), s);
  }

  /** Moved out or copied, the store gets the same fields back. */
  lemma PopOneCorrect(h: Heap, s: StoreId)
    requires Inv(h) && CanPopIn(h, s)
    ensures CanPop(View(h, s)) && View(PopOneIn(h, s), s) == PopOnce(View(h, s))
  {
    PopOneInv(h, s);
    SameUnfold(h, PopOneIn(h, s), Holder(s, true));
    PopChain(h, s);
    PopFields(h, s);
  }

  lemma PopChain(h: Heap, s: StoreId)
    requires Inv(h) && CanPopIn(h, s) && Inv(PopOneIn(h, s))
    requires var h' := PopOneIn(h, s); NodesKept(h.nodes, h'.nodes) || NodesKept(h'.nodes, h.nodes)
    ensures var h', c := PopOneIn(h, s), Reference(PopOneIn(h, s).held, Holder(s, false));
            Unfold(h'.nodes, c) == Unfold(h.nodes, c)
  {
    var h' := PopOneIn(h, s);
    var c := Reference(h'.held, Holder(s, false));
    if !IsDead(h.own[s].depth) {
      assert c == ParentOf(h.nodes, h.held[Holder(s, false)]);
    }
    if NodesKept(h.nodes, h'.nodes) { UnfoldFrame(h.nodes, h'.nodes, c); } else { UnfoldFrame(h'.nodes, h.nodes, c); }
  }

  lemma ForkInv(h: Heap, s: StoreId, t: StoreId)
    requires Inv(h) && s in h.own && t !in h.own
    ensures var h' := ForkIn(h, s, t); Inv(h') && NodesKept(h.nodes, h'.nodes)
  {
    var c, mine := Reference(h.held, Holder(s, false)), Holder(t, true);
    Cloning(h.nodes, h.held, mine, c);
    Freezing(CloneRef(h.nodes, c), Rehold(h.held, mine, c), mine, h.next, Frozen(h, s));
    assert ForkIn(h, s, t).held == Rehold(h.held, mine, c)[mine := h.next];
  }

  lemma ForkCorrect(h: Heap, s: StoreId, t: StoreId)
    requires Inv(h) && s in h.own && t !in h.own
    ensures var h' := ForkIn(h, s, t);
            Inv(h') && OthersKept(h, h', t) && View(h', t) == Fork(View(h, s))
  {
    var h' := ForkIn(h, s, t);
    ForkInv(h, s, t);
    KeepOthers(h, h', t);
    FrozenNode(h, s, h'.nodes);
  }

  lemma DropInv(h: Heap, s: StoreId)
    requires Inv(h)
    ensures Inv(DropIn(h, s)) && NodesKept(DropIn(h, s).nodes, h.nodes)
  {
    var c, f := Holder(s, false), Holder(s, true);
    var once := Release(h.nodes, Reference(h.held, c));
    Releasing(h.nodes, h.held, c);
    Releasing(once, h.held - {c}, f);
    KeptTwice(DropIn(h, s).nodes, once, h.nodes);
  }

  lemma DropCorrect(h: Heap, s: StoreId)
    requires Inv(h)
    ensures Inv(DropIn(h, s)) && OthersKept(h, DropIn(h, s), s)
  {
    DropInv(h, s);
    KeepOthers(h, DropIn(h, s), s);
  }

  // ---- Popping several levels ----

  ghost function PopWhileIn(h: Heap, s: StoreId, expected: nat): Heap
    requires Inv(h) && s in h.own
    decreases var c := Reference(h.held, Holder(s, false)); if c.Some? then c.value + 1 else 0, h.own[s].depth
  {
    if h.own[s].depth >= expected && CanPopIn(h, s) then
      PopOneKeeps(h, s);
      PopOneShrinks(h, s);
      PopWhileIn(PopOneIn(h, s), s, expected)
    else h
  }

  lemma PopOneShrinks(h: Heap, s: StoreId)
    requires Inv(h) && CanPopIn(h, s)
    ensures var h', r := PopOneIn(h, s), Holder(s, false);
            if IsDead(h.own[s].depth) then h'.held == h.held && h'.own[s].depth < h.own[s].depth
            else r in h'.held ==> h'.held[r] < h.held[r]
  {
    if !IsDead(h.own[s].depth) {
      assert ParentOf(h.nodes, h.held[Holder(s, false)]) == h.nodes[h.held[Holder(s, false)]].parent;
    }
  }

  lemma CanPopSame(h: Heap, s: StoreId)
    requires Inv(h) && s in h.own
    ensures CanPopIn(h, s) <==> CanPop(View(h, s))
  {
  }

  lemma OthersKeptTwice(a: Heap, b: Heap, c: Heap, s: StoreId)
    requires OthersKept(a, b, s) && OthersKept(b, c, s)
    ensures OthersKept(a, c, s)
  {
  }

  lemma {:induction false} PopWhileCorrect(h: Heap, s: StoreId, expected: nat)
    requires Inv(h) && s in h.own
    ensures var h' := PopWhileIn(h, s, expected);
            && Inv(h') && s in h'.own && h'.own.Keys == h.own.Keys && OthersKept(h, h', s)
            && View(h', s) == PopWhile(View(h, s), expected)
    decreases var c := Reference(h.held, Holder(s, false)); if c.Some? then c.value + 1 else 0, h.own[s].depth
  {
    CanPopSame(h, s);
    if h.own[s].depth >= expected && CanPopIn(h, s) {
      PopOneKeeps(h, s);
      PopOneShrinks(h, s);
      PopOneCorrect(h, s);
      PopWhileCorrect(PopOneIn(h, s), s, expected);
      OthersKeptTwice(h, PopOneIn(h, s), PopWhileIn(h, s, expected), s);
    }
  }

  ghost function PopIn(h: Heap, s: StoreId, expected: nat): Heap
    requires Inv(h) && s in h.own
  {
    if h.own[s].depth < expected || expected <= 1 then h else PopWhileIn(h, s, expected)
  }

  // ---- Any stores, any operations, in any order ----

  datatype HeapOp =
    | Create(s: StoreId, values: Overlay, remoteChain: seq<Name>)
    | Enter(s: StoreId, name: Option<Name>)
    | Leave(s: StoreId, expected: nat)
    | Write(s: StoreId, values: Overlay)
    | ForkOff(s: StoreId, child: StoreId)
    | Discard(s: StoreId)

  predicate Legal(live: set<StoreId>, op: HeapOp) {
    match op
    case Create(s, _, _) => s !in live
    case ForkOff(s, child) => s in live && child !in live
    case _ => op.s in live
  }

  function LiveAfter(live: set<StoreId>, op: HeapOp): set<StoreId> {
    match op
    case Create(s, _, _) => live + {s}
    case ForkOff(_, child) => live + {child}
    case Discard(s) => live - {s}
    case _ => live
  }

  predicate LegalRun(live: set<StoreId>, ops: seq<HeapOp>)
    decreases ops
  {
    ops != [] ==> Legal(live, ops[0]) && LegalRun(LiveAfter(live, ops[0]), ops[1..])
  }

  /** The operation on the shared heap. */
  ghost function DoIn(h: Heap, cached: set<Key>, op: HeapOp): Heap
    requires Inv(h) && Legal(h.own.Keys, op)
  {
    match op
    case Create(s, values, remoteChain) => CreateIn(h, s, values, remoteChain)
    case Enter(s, name) => PushIn(h, s, cached, name)
    case Leave(s, expected) => PopIn(h, s, expected)
    case Write(s, values) => WriteIn(h, s, values)
    case ForkOff(s, child) => ForkIn(h, s, child)
    case Discard(s) => DropIn(h, s)
  }

  /** The operation on stores that share nothing: every store is a value of its own. */
  function DoApart(w: map<StoreId, State>, cached: set<Key>, op: HeapOp): (w': map<StoreId, State>)
    requires Legal(w.Keys, op)
    ensures w'.Keys == LiveAfter(w.Keys, op)
  {
    match op
    case Create(s, values, remoteChain) => w[s := FromValuesWithChain(values, remoteChain)]
    case Enter(s, name) => w[s := Push(w[s], cached, name)]
    case Leave(s, expected) => w[s := Pop(w[s], expected)]
    case Write(s, values) => w[s := w[s].(currentValues := w[s].currentValues + values)]
    case ForkOff(s, child) => w[child := Fork(w[s])]
    case Discard(s) => w - {s}
  }

  function Views(h: Heap): (w: map<StoreId, State>)
    ensures w.Keys == h.own.Keys
  {
    map s | s in h.own :: View(h, s)
  }

  lemma ViewsAfter(h: Heap, h': Heap, s: StoreId)
    requires OthersKept(h, h', s) && h'.own.Keys == h.own.Keys + {s}
    ensures Views(h') == Views(h)[s := View(h', s)]
  {
    forall t | t in h'.own ensures Views(h')[t] == Views(h)[s := View(h', s)][t] {}
  }

  lemma LeaveRefines(h: Heap, s: StoreId, expected: nat)
    requires Inv(h) && s in h.own
    ensures var h' := PopIn(h, s, expected);
            Inv(h') && h'.own.Keys == h.own.Keys && Views(h') == Views(h)[s := Pop(View(h, s), expected)]
  {
    if h.own[s].depth < expected || expected <= 1 {
      assert Views(h) == Views(h)[s := View(h, s)];
    } else {
      PopWhileCorrect(h, s, expected);
      ViewsAfter(h, PopIn(h, s, expected), s);
    }
  }

  lemma EnterRefines(h: Heap, cached: set<Key>, s: StoreId, name: Option<Name>)
    requires Inv(h) && s in h.own
    ensures var h' := PushIn(h, s, cached, name); Inv(h') && Views(h') == Views(h)[s := Push(View(h, s), cached, name)]
  {
    PushCorrect(h, s, cached, name);
    ViewsAfter(h, PushIn(h, s, cached, name), s);
  }

  lemma ForkRefines(h: Heap, s: StoreId, child: StoreId)
    requires Inv(h) && s in h.own && child !in h.own
    ensures var h' := ForkIn(h, s, child); Inv(h') && Views(h') == Views(h)[child := Fork(View(h, s))]
  {
    ForkCorrect(h, s, child);
    ViewsAfter(h, ForkIn(h, s, child), child);
  }

  lemma DiscardRefines(h: Heap, s: StoreId)
    requires Inv(h)
    ensures Inv(DropIn(h, s)) && Views(DropIn(h, s)) == Views(h) - {s}
  {
    DropCorrect(h, s);
  }

  lemma DoRefines(h: Heap, cached: set<Key>, op: HeapOp)
    requires Inv(h) && Legal(h.own.Keys, op)
    ensures Inv(DoIn(h, cached, op))
    ensures Views(DoIn(h, cached, op)) == DoApart(Views(h), cached, op)
  {
    match op
    case Create(s, values, remoteChain) =>
      CreateCorrect(h, s, values, remoteChain);
      ViewsAfter(h, CreateIn(h, s, values, remoteChain), s);
    case Enter(s, name) =>
      EnterRefines(h, cached, s, name);
    case Leave(s, expected) =>
      LeaveRefines(h, s, expected);
    case Write(s, values) =>
      WriteCorrect(h, s, values);
      ViewsAfter(h, WriteIn(h, s, values), s);
    case ForkOff(s, child) =>
      ForkRefines(h, s, child);
    case Discard(s) =>
      DiscardRefines(h, s);
  }

  ghost function RunIn(h: Heap, cached: set<Key>, ops: seq<HeapOp>): Heap
    requires Inv(h) && LegalRun(h.own.Keys, ops)
    decreases ops
  {
    if ops == [] then h
    else
      DoRefines(h, cached, ops[0]);
      RunIn(DoIn(h, cached, ops[0]), cached, ops[1..])
  }

  function RunApart(w: map<StoreId, State>, cached: set<Key>, ops: seq<HeapOp>): map<StoreId, State>
    requires LegalRun(w.Keys, ops)
    decreases ops
  {
    if ops == [] then w else RunApart(DoApart(w, cached, ops[0]), cached, ops[1..])
  }

  /**
   Sharing is not observable: after any interleaving of operations on any stores, every store is what
   it would be if no two stores shared a node. In particular nothing done to a fork's parent or child
   is seen by the other, and a node another store can still reach is never taken apart.
   */
  lemma {:induction false} SharingIsInvisible(h: Heap, cached: set<Key>, ops: seq<HeapOp>)
    requires Inv(h) && LegalRun(h.own.Keys, ops)
    ensures Inv(RunIn(h, cached, ops))
    ensures Views(RunIn(h, cached, ops)) == RunApart(Views(h), cached, ops)
    decreases ops
  {
    if ops != [] {
      DoRefines(h, cached, ops[0]);
      SharingIsInvisible(DoIn(h, cached, ops[0]), cached, ops[1..]);
    }
  }

  /** An operation on a store as one of the operations a store alone can go through; a fork leaves its parent alone. */
  function OwnOp(op: HeapOp): seq<Op> {
    match op
    case Enter(_, name) => [Op.Enter(name)]
    case Leave(_, expected) => [Op.Leave(expected)]
    case Write(_, values) => [Op.MergeFrom(FromValuesWithChain(values, []))]
    case _ => []
  }

  /** What happens to one store. */
  function OpsOn(ops: seq<HeapOp>, s: StoreId): seq<Op>
    decreases ops
  {
    if ops == [] then [] else (if ops[0].s == s then OwnOp(ops[0]) else []) + OpsOn(ops[1..], s)
  }

  lemma DoApartOwn(w: map<StoreId, State>, cached: set<Key>, op: HeapOp, s: StoreId)
    requires Legal(w.Keys, op) && s in w && op != Discard(s)
    ensures s in DoApart(w, cached, op)
    ensures DoApart(w, cached, op)[s] == Run(w[s], cached, if op.s == s then OwnOp(op) else [])
  {
    if op.s == s && OwnOp(op) != [] {
      assert OwnOp(op)[1..] == [];
      if op.Write? {
        var source := FromValuesWithChain(op.values, []);
        assert Visible(source) == [op.values] && Visible(source)[1..] == [];
        assert Flatten(Visible(source)) == map[] + op.values == op.values;
      }
    }
  }

  lemma {:induction false} RunThen(s: State, cached: set<Key>, a: seq<Op>, b: seq<Op>)
    ensures Run(s, cached, a + b) == Run(Run(s, cached, a), cached, b)
    decreases a
  {
    if a == [] {
      assert a + b == b;
    } else {
      assert (a + b)[1..] == a[1..] + b;
      RunThen(Step(s, cached, a[0]), cached, a[1..], b);
    }
  }

  lemma {:induction false} RunApartOwn(w: map<StoreId, State>, cached: set<Key>, ops: seq<HeapOp>, s: StoreId)
    requires LegalRun(w.Keys, ops) && s in w && Discard(s) !in ops
    ensures s in RunApart(w, cached, ops) && RunApart(w, cached, ops)[s] == Run(w[s], cached, OpsOn(ops, s))
    decreases ops
  {
    if ops != [] {
      assert ops[0] in ops;
      DoApartOwn(w, cached, ops[0], s);
      RunApartOwn(DoApart(w, cached, ops[0]), cached, ops[1..], s);
      RunThen(w[s], cached, if ops[0].s == s then OwnOp(ops[0]) else [], OpsOn(ops[1..], s));
    }
  }

  /**
   Each store goes its own way: after any interleaving of operations on any stores, a store that was not
   dropped is what its own pushes, pops and writes alone make of it.
   */
  lemma EachGoesItsOwnWay(h: Heap, cached: set<Key>, ops: seq<HeapOp>, s: StoreId)
    requires Inv(h) && LegalRun(h.own.Keys, ops) && s in h.own && Discard(s) !in ops
    ensures s in RunIn(h, cached, ops).own
    ensures View(RunIn(h, cached, ops), s) == Run(View(h, s), cached, OpsOn(ops, s))
  {
    SharingIsInvisible(h, cached, ops);
    RunApartOwn(Views(h), cached, ops, s);
    assert s in Views(RunIn(h, cached, ops));
  }

  // ---- No leaks ----

  ghost predicate Reaches(nodes: Nodes, from: NodeId, to: NodeId)
    decreases from
  {
    || from == to
    || (&& ParentOf(nodes, from).Some? && ParentOf(nodes, from).value < from
        && Reaches(nodes, ParentOf(nodes, from).value, to))
  }

  ghost predicate ReachedFrom(nodes: Nodes, held: References, i: NodeId) {
    exists r :: r in held && Reaches(nodes, held[r], i)
  }

  lemma {:induction false} AllReached(nodes: Nodes, held: References, next: NodeId, i: NodeId)
    requires Counted(nodes, held) && (forall j :: j in nodes ==> j < next) && i in nodes
    ensures ReachedFrom(nodes, held, i)
    decreases next - i
  {
    assert CountOf(nodes, held, i) > 0;
    if r :| r in HoldersOf(held, i) {
      assert Reaches(nodes, held[r], i);
    } else {
      assert HoldersOf(held, i) == {};
      var j :| j in ChildrenOf(nodes, i);
      assert ParentOf(nodes, j) == Some(i);
      AllReached(nodes, held, next, j);
      var r :| r in held && Reaches(nodes, held[r], j);
      ReachesParent(nodes, held[r], j, i);
    }
  }

  /** Every allocated node is reachable from a live store. */
  lemma NothingLeaks(h: Heap, i: NodeId)
    requires Inv(h) && i in h.nodes
    ensures exists r :: r in h.held && r.store in h.own && Reaches(h.nodes, h.held[r], i)
  {
    AllReached(h.nodes, h.held, h.next, i);
  }

  lemma {:induction false} ReachesParent(nodes: Nodes, from: NodeId, j: NodeId, i: NodeId)
    requires Reaches(nodes, from, j) && ParentOf(nodes, j) == Some(i) && i < j
    ensures Reaches(nodes, from, i)
    decreases from
  {
    if from != j {
      ReachesParent(nodes, ParentOf(nodes, from).value, j, i);
    } else {
      assert Reaches(nodes, i, i);
    }
  }

  lemma {:induction false} ReachesFrame(fewer: Nodes, nodes: Nodes, from: NodeId, i: NodeId)
    requires Linked(fewer) && NodesKept(fewer, nodes) && from in fewer
    ensures Reaches(fewer, from, i) <==> Reaches(nodes, from, i)
    ensures Reaches(nodes, from, i) ==> i in fewer
    decreases from
  {
    assert ParentOf(fewer, from) == ParentOf(nodes, from);
    if ParentOf(fewer, from).Some? {
      ReachesFrame(fewer, nodes, ParentOf(fewer, from).value, i);
    }
  }

  /** What is left of a heap's nodes once some references are gone: those the remaining ones reached. */
  lemma Survivors(nodes: Nodes, fewer: Nodes, held: References, next: NodeId, i: NodeId)
    requires Counted(fewer, held) && NodesKept(fewer, nodes) && forall j :: j in fewer ==> j < next
    ensures i in fewer <==> i in nodes && ReachedFrom(nodes, held, i)
  {
    forall r | r in held ensures Reaches(fewer, held[r], i) <==> Reaches(nodes, held[r], i)
                         ensures Reaches(nodes, held[r], i) ==> i in fewer
    {
      ReachesFrame(fewer, nodes, held[r], i);
    }
    if i in fewer { AllReached(fewer, held, next, i); }
  }

  /** Dropping a reference frees a node exactly if no other reference reached it. */
  lemma ReleaseFrees(nodes: Nodes, held: References, h: Holder, next: NodeId, i: NodeId)
    requires Counted(nodes, held) && (forall j :: j in nodes ==> j < next) && i in nodes
    ensures i !in Release(nodes, Reference(held, h)) <==> !ReachedFrom(nodes, held - {h}, i)
  {
    Releasing(nodes, held, h);
    Survivors(nodes, Release(nodes, Reference(held, h)), held - {h}, next, i);
  }

  /** Dropping a store frees a node exactly if no other store reached it. */
  lemma DropFrees(h: Heap, s: StoreId, i: NodeId)
    requires Inv(h) && i in h.nodes
    ensures i !in DropIn(h, s).nodes <==> !ReachedFrom(h.nodes, h.held - {Holder(s, false), Holder(s, true)}, i)
  {
    var c, f := Holder(s, false), Holder(s, true);
    DropInv(h, s);
    assert h.held - {c, f} == h.held - {c} - {f};
    Survivors(h.nodes, DropIn(h, s).nodes, h.held - {c, f}, h.next, i);
  }

  /** When the last store is dropped, so is the last node. */
  lemma NoStoresNoNodes(h: Heap)
    requires Inv(h) && h.own == map[]
    ensures h.nodes == map[]
  {
    if i :| i in h.nodes {
      NothingLeaks(h, i);
    }
  }
}
