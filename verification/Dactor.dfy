/** Carrying the context along actor messages (dcontext-dactor/src/outbound.rs, inbound.rs). */
module Dactor {
  import opened Wrappers
  import opened Overlays
  import opened Codecs
  import opened Scopes
  import opened Registry
  import opened Snapshots
  import opened Wire
  import opened Runtime
  import Forking
  import ScopeNames

  datatype ErrorPolicy = LogAndContinue | Reject

  datatype Disposition = Continue | Rejected

  /** What one process is configured with: the backend, the registry and the limits. */
  datatype Config = Config(lib: Backend, registry: RegistryMap, maxChain: nat, maxSize: nat)

  ghost predicate Sound(c: Config) {
    EnvelopeSound(c.lib) && WellFormed(c.lib, c.registry)
  }

  /** A message's headers; only the wire header survives a transport. */
  class Headers {
    var wire: Option<Bytes>
    var snapshot: Option<Snapshot>

    constructor ()
      ensures wire == None && snapshot == None
    {
      wire, snapshot := None, None;
    }

    /** The message as its remote receiver sees it. */
    constructor FromTransport(sent: Headers)
      ensures wire == sent.wire && snapshot == None
    {
      wire, snapshot := sent.wire, None;
    }
  }

  function CaptureOf(c: Config, s: State): Snapshot {
    Capture(c.registry, c.maxChain, s)
  }

  /**
   The outbound interceptor: a local message gets the snapshot; a remote one gets its bytes, or, if
   serializing fails in the order the map was enumerated in, nothing, or it is rejected.
   */
  method OnSend(c: Config, policy: ErrorPolicy, s: State, remote: bool, headers: Headers)
    returns (d: Disposition, ghost order: seq<Key>)
    modifies headers
    ensures Enumerates(order, CaptureOf(c, s).values) || !remote
    ensures !remote ==> headers.snapshot == Some(CaptureOf(c, s)) && headers.wire == old(headers.wire) && d == Continue
    ensures remote ==>
              var sent := Serialize(c.lib, c.registry, c.maxSize, CaptureOf(c, s), order);
              && headers.wire == (if sent.Ok? then Some(sent.value) else old(headers.wire))
              && headers.snapshot == old(headers.snapshot)
              && d == if sent.Err? && policy == Reject then Rejected else Continue
  {
    order := [];
    if remote {
      var sent := SerializeFrom(c.lib, c.registry, c.maxSize, CaptureOf(c, s));
      order :| Enumerates(order, CaptureOf(c, s).values)
               && sent == Serialize(c.lib, c.registry, c.maxSize, CaptureOf(c, s), order);
      if sent.Ok? {
        headers.wire := Some(sent.value);
      } else if policy == Reject {
        return Rejected, order;
      }
    } else {
      headers.snapshot := Some(CaptureOf(c, s));
    }
    return Continue, order;
  }

  /** The inbound interceptor: makes sure a message that carries a readable context carries it as a snapshot. */
  method OnReceive(c: Config, policy: ErrorPolicy, headers: Headers) returns (d: Disposition)
    modifies headers
    ensures headers.wire == old(headers.wire)
    ensures old(headers.snapshot).Some? ==> headers.snapshot == old(headers.snapshot)
    ensures old(headers.snapshot).None? && headers.wire.None? ==> headers.snapshot.None?
    ensures old(headers.snapshot).None? && headers.wire.Some? ==>
              match Deserialize(c.lib, c.registry, headers.wire.value)
              case Ok(snap) => headers.snapshot == Some(snap)
              case Err(_) => headers.snapshot.None?
    ensures headers.snapshot == Incoming(c, old(headers.snapshot), headers.wire)
    ensures d == if headers.snapshot == None && headers.wire.Some? && policy == Reject then Rejected else Continue
  {
    if headers.snapshot.Some? {
      return Continue;
    }
    if headers.wire.Some? {
      var read := DeserializeToSnapshot(c.lib, c.registry, headers.wire.value);
      if read.Ok? {
        headers.snapshot := Some(read.value);
      } else if policy == Reject {
        return Rejected;
      }
    }
    return Continue;
  }

  function Incoming(c: Config, snapshot: Option<Snapshot>, wire: Option<Bytes>): Option<Snapshot> {
    if snapshot.Some? || wire.None? then snapshot
    else
      var read := Deserialize(c.lib, c.registry, wire.value);
      if read.Ok? then Some(read.value) else None
  }

  function RemoteScope(actor: Name): Name {
    "remote:" + actor
  }

  /** The store the handler runs with: attach, enter "remote:actor", capture, attach. */
  function HandlerStore(c: Config, snap: Snapshot, actor: Name): State {
    var entered := Push(Rebuild(c.registry, snap), CachedKeys(c.registry), Some(RemoteScope(actor)));
    Rebuild(c.registry, CaptureOf(c, entered))
  }

  /** Without a snapshot header the handler is not wrapped. */
  function WrapHandler(c: Config, headers: Headers, actor: Name): Option<State>
    reads headers
  {
    if headers.snapshot.None? then None else Some(HandlerStore(c, headers.snapshot.value, actor))
  }

  /**
   The handler run as the dispatcher runs it. Wrapped: a first wrapped future enters "remote:actor" in
   the snapshot's store and captures; the handler is wrapped with what it captured, and polled. The
   thread's own store is left untouched. Without a snapshot header the handler runs on that store.
   */
  method RunHandler(c: Config, cell: ThreadCell, headers: Headers, actor: Name, handler: Program)
    returns (end: Option<State>, log: seq<Seen>)
    modifies cell, cell.store
    ensures cell.store == old(cell.store)
    ensures var env, wrapped := Env(c.registry, c.maxChain), WrapHandler(c, headers, actor);
            && end == Left(env, if wrapped.Some? then wrapped else old(Held(cell.store)), handler)
            && log == Log(env, if wrapped.Some? then wrapped else old(Held(cell.store)), handler)
            && Held(cell.store) == if wrapped.Some? then old(Held(cell.store)) else end
  {
    var env := Env(c.registry, c.maxChain);
    if headers.snapshot.None? {
      log := RunProgram(env, cell, handler);
      end := Held(cell.store);
    } else {
      end, log := RunWrapped(c, cell, headers.snapshot.value, actor, handler);
    }
  }

  method RunWrapped(c: Config, cell: ThreadCell, snap: Snapshot, actor: Name, handler: Program)
    returns (end: Option<State>, log: seq<Seen>)
    modifies cell
    ensures cell.store == old(cell.store) && Held(cell.store) == old(Held(cell.store))
    ensures var env, start := Env(c.registry, c.maxChain), Some(HandlerStore(c, snap, actor));
            end == Left(env, start, handler) && log == Log(env, start, handler)
  {
    var env := Env(c.registry, c.maxChain);
    var scoped := Wrap(env, cell, OfSnapshot(snap));
    var prev := scoped.Begin(cell);
    var scope := PushScope(env, cell, RemoteScope(actor));
    var captured := CaptureFrom(env, cell);
    DropScopeGuard(cell, scope);
    scoped.End(cell, prev);
    var next := Wrap(env, cell, OfSnapshot(captured));
    log := next.Poll(env, cell, handler);
    end := Held(next.store);
  }

  // ---- What the handler sees ----

  /**
   The handler of a message sees the valid part of its snapshot, and its chain followed by
   "remote:actor", cut to the limit.
   */
  lemma HandlerView(c: Config, snap: Snapshot, actor: Name)
    ensures var h := HandlerStore(c, snap, actor);
            && (forall k :: Lookup(h, k) == Projected(c.registry, k, Get(snap.values, k)))
            && FullChain(h) == Truncate(snap.scopeChain + [RemoteScope(actor)], c.maxChain)
  {
    var entered := Push(Rebuild(c.registry, snap), CachedKeys(c.registry), Some(RemoteScope(actor)));
    EnteredView(c, snap, actor);
    RebuildLookups(c.registry, c.maxChain, entered);
    RebuildChain(c.registry, c.maxChain, entered);
  }

  lemma EnteredView(c: Config, snap: Snapshot, actor: Name)
    ensures var entered := Push(Rebuild(c.registry, snap), CachedKeys(c.registry), Some(RemoteScope(actor)));
            && Shape(entered)
            && (forall k :: Lookup(entered, k) == Projected(c.registry, k, Get(snap.values, k)))
            && FullChain(entered) == snap.scopeChain + [RemoteScope(actor)]
  {
    var t := Rebuild(c.registry, snap);
    FlatView(t.currentValues, t.remoteChain);
    assert t == FromValuesWithChain(t.currentValues, t.remoteChain);
    StepShape(t, CachedKeys(c.registry), Enter(Some(RemoteScope(actor))));
    Forking.PushKeepsLookups(t, CachedKeys(c.registry), Some(RemoteScope(actor)));
    Forking.PushAppendsName(t, CachedKeys(c.registry), Some(RemoteScope(actor)));
    forall k ensures Get(t.currentValues, k) == Projected(c.registry, k, Get(snap.values, k)) {}
  }

  lemma HandlerViewOf(c: Config, s: State, actor: Name)
    ensures var h := HandlerStore(c, CaptureOf(c, s), actor);
            && (forall k :: Lookup(h, k) == Projected(c.registry, k, Lookup(s, k)))
            && (forall k :: IsLocalKey(c.registry, k) ==> Lookup(h, k) == None)
            && FullChain(h) == Truncate(FullChain(s) + [RemoteScope(actor)], c.maxChain)
  {
    var snap := CaptureOf(c, s);
    HandlerView(c, snap, actor);
    ScopeNames.TruncateAppend(FullChain(s), [RemoteScope(actor)], c.maxChain);
    forall k ensures Lookup(HandlerStore(c, snap, actor), k) == Projected(c.registry, k, Lookup(s, k)) {
      CaptureLookup(c.registry, c.maxChain, s, k);
    }
  }

  /**
   The handler of a local message sees the sender's registered, well-typed, not local-only values,
   and the sender's scope chain followed by "remote:actor", cut to the limit.
   */
  lemma HandlerSees(c: Config, s: State, actor: Name)
    ensures var h := HandlerStore(c, CaptureOf(c, s), actor);
            && (forall k :: Lookup(h, k) == Projected(c.registry, k, Lookup(s, k)))
            && (forall k :: IsLocalKey(c.registry, k) ==> Lookup(h, k) == None)
            && IsEnd(FullChain(h), FullChain(s) + ["remote:" + actor], c.maxChain)
  {
    HandlerViewOf(c, s, actor);
    TruncateIsEnd(FullChain(s) + [RemoteScope(actor)], c.maxChain);
  }

  /** A local message loses a local-only value, which the sender sees. */
  lemma LocalHopLosesLocal(c: Config, key: Key, value: Value, actor: Name)
    requires c.registry == AfterAll(c.lib, map[], [Register(key, value.tag, Options(1, true, false, None))])
    ensures var s := Run(Scopes.New(), CachedKeys(c.registry), [Write(key, value)]);
            && Lookup(s, key) == Some(value)
            && Lookup(HandlerStore(c, CaptureOf(c, s), actor), key) == None
  {
    var calls, ops := [Register(key, value.tag, Options(1, true, false, None))], [Write(key, value)];
    assert calls[1..] == [] && ops[1..] == [];
    assert IsLocalKey(c.registry, key);
    var s := Set(Scopes.New(), key, value);
    assert Run(Scopes.New(), CachedKeys(c.registry), ops) == s;
    assert Visible(s)[0] == s.currentValues;
    HandlerSees(c, s, actor);
  }

  lemma SameHandler(c: Config, a: Snapshot, b: Snapshot, actor: Name)
    requires a.scopeChain == b.scopeChain
    requires forall k :: Projected(c.registry, k, Get(a.values, k)) == Projected(c.registry, k, Get(b.values, k))
    ensures HandlerStore(c, a, actor) == HandlerStore(c, b, actor)
  {
    var ra, rb := Rebuild(c.registry, a), Rebuild(c.registry, b);
    forall k ensures Get(ra.currentValues, k) == Get(rb.currentValues, k) {
      assert Get(ra.currentValues, k) == Projected(c.registry, k, Get(a.values, k));
      assert Get(rb.currentValues, k) == Projected(c.registry, k, Get(b.values, k));
    }
    SameLookups(ra.currentValues, rb.currentValues);
  }

  /**
   Whenever the sender's context serializes, the handler of the remote message starts from the very
   same store as the handler of a local one exactly if every portable value sent has the type its key
   is registered with and is returned by the codec registered with it.
   */
  lemma RemoteHopIsLocalHop(c: Config, s: State, order: seq<Key>, actor: Name)
    requires Sound(c) && Enumerates(order, CaptureOf(c, s).values)
    requires Serialize(c.lib, c.registry, c.maxSize, CaptureOf(c, s), order).Ok?
    ensures var sent := Serialize(c.lib, c.registry, c.maxSize, CaptureOf(c, s), order);
            var received := Incoming(c, None, Some(sent.value));
            (received.Some? && HandlerStore(c, received.value, actor) == HandlerStore(c, CaptureOf(c, s), actor))
            <==> AllFaithful(c.lib, c.registry, CaptureOf(c, s).values)
  {
    var snap := CaptureOf(c, s);
    var received := Deserialize(c.lib, c.registry, Serialize(c.lib, c.registry, c.maxSize, snap, order).value);
    RoundTrip(c.lib, c.registry, c.maxSize, snap, order);
    if AllFaithful(c.lib, c.registry, snap.values) {
      SameHandler(c, received.value, snap, actor);
    } else if received.Ok? {
      CrossVersionDecode(c.lib, c.registry, c.registry, c.maxSize, snap, order);
      var k :| k in snap.values && IsPortable(c.registry, k) && !Faithful(c.lib, c.registry, k, snap.values[k]);
      WrittenFaithful(c.lib, c.registry, snap.values, order, k);
      ReadBackTyped(c.lib, c.registry, c.registry, c.maxSize, snap, order, k);
      HandlersDiffer(c, snap, received.value, actor, k);
    }
  }

  /** A handler that is sent a valid value of a portable key differs from one that is sent another value for it. */
  lemma HandlersDiffer(c: Config, a: Snapshot, b: Snapshot, actor: Name, key: Key)
    requires key in a.values && IsPortable(c.registry, key)
    requires key in b.values && IsValidValue(c.registry, key, b.values[key]) && a.values[key] != b.values[key]
    ensures HandlerStore(c, a, actor) != HandlerStore(c, b, actor)
  {
    HandlerView(c, a, actor);
    HandlerView(c, b, actor);
    assert Lookup(HandlerStore(c, a, actor), key) != Some(b.values[key]);
    assert Lookup(HandlerStore(c, b, actor), key) == Some(b.values[key]);
  }

  /** The full remote path, run: send, transport, receive, wrap. */
  method RemoteHop(c: Config, s: State, actor: Name, policy: ErrorPolicy)
    returns (handler: Option<State>, d: Disposition, ghost order: seq<Key>)
    requires Sound(c)
    ensures Enumerates(order, CaptureOf(c, s).values)
    ensures handler == Some(HandlerStore(c, CaptureOf(c, s), actor)) <==>
            && Serialize(c.lib, c.registry, c.maxSize, CaptureOf(c, s), order).Ok?
            && AllFaithful(c.lib, c.registry, CaptureOf(c, s).values)
    ensures d == if handler.None? && policy == Reject then Rejected else Continue
  {
    var sent := new Headers();
    d, order := OnSend(c, policy, s, true, sent);
    if d == Rejected {
      return None, d, order;
    }
    var arrived := new Headers.FromTransport(sent);
    d := OnReceive(c, policy, arrived);
    handler := WrapHandler(c, arrived, actor);
    if arrived.wire.Some? {
      RemoteHopIsLocalHop(c, s, order, actor);
    }
  }

  // ---- Between processes with different registries ----

  /** Any value that the sender lets out and the receiver reads. */
  predicate Crosses(sender: Config, receiver: Config, key: Key, value: Option<Value>) {
    value.Some? && !IsLocalKey(sender.registry, key) && IsPortable(receiver.registry, key)
  }

  /** What the receiver's handler finds of a value the sender's context holds. */
  function Arriving(sender: Config, receiver: Config, key: Key, value: Option<Value>): Option<Value> {
    if !Crosses(sender, receiver, key, value) then None
    else
      var read := Received(sender.lib, sender.registry, receiver.registry, key, value.value);
      if read.Ok? then Some(read.value) else None
  }

  /** Sender and receiver share the backend only, and the sender's context serializes. */
  ghost predicate Sends(sender: Config, receiver: Config, s: State, order: seq<Key>) {
    && sender.lib == receiver.lib && Sound(receiver)
    && Enumerates(order, CaptureOf(sender, s).values)
    && Serialize(sender.lib, sender.registry, sender.maxSize, CaptureOf(sender, s), order).Ok?
  }

  function ReceivedSnapshot(sender: Config, receiver: Config, s: State, order: seq<Key>): Option<Snapshot>
    requires Enumerates(order, CaptureOf(sender, s).values)
    requires Serialize(sender.lib, sender.registry, sender.maxSize, CaptureOf(sender, s), order).Ok?
  {
    var sent := Serialize(sender.lib, sender.registry, sender.maxSize, CaptureOf(sender, s), order);
    Incoming(receiver, None, Some(sent.value))
  }

  lemma CapturedWhat(c: Config, s: State)
    ensures forall k :: Get(CaptureOf(c, s).values, k) == if IsLocalKey(c.registry, k) then None else Lookup(s, k)
  {
    forall k ensures Get(CaptureOf(c, s).values, k) == if IsLocalKey(c.registry, k) then None else Lookup(s, k) {
      CaptureLookup(c.registry, c.maxChain, s, k);
    }
  }

  lemma ReceivedWhen(sender: Config, receiver: Config, s: State, order: seq<Key>)
    requires Sends(sender, receiver, s, order)
    ensures ReceivedSnapshot(sender, receiver, s, order).Some? <==>
              forall k :: Crosses(sender, receiver, k, Lookup(s, k)) ==>
                Received(sender.lib, sender.registry, receiver.registry, k, Lookup(s, k).value).Ok?
  {
    var snap := CaptureOf(sender, s);
    CrossVersionDecode(sender.lib, sender.registry, receiver.registry, sender.maxSize, snap, order);
    CapturedWhat(sender, s);
    forall k
      ensures Crosses(sender, receiver, k, Lookup(s, k)) <==> k in snap.values && IsPortable(receiver.registry, k)
      ensures k in snap.values ==> Some(snap.values[k]) == Lookup(s, k)
    {
      assert Get(snap.values, k) == if IsLocalKey(sender.registry, k) then None else Lookup(s, k);
    }
  }

  lemma ArrivesAs(sender: Config, receiver: Config, s: State, order: seq<Key>, key: Key)
    requires Sends(sender, receiver, s, order) && ReceivedSnapshot(sender, receiver, s, order).Some?
    ensures Projected(receiver.registry, key, Get(ReceivedSnapshot(sender, receiver, s, order).value.values, key))
         == Arriving(sender, receiver, key, Lookup(s, key))
  {
    var snap, received := CaptureOf(sender, s), ReceivedSnapshot(sender, receiver, s, order).value;
    CrossVersionDecode(sender.lib, sender.registry, receiver.registry, sender.maxSize, snap, order);
    CaptureLookup(sender.registry, sender.maxChain, s, key);
    if key in received.values {
      ReadBackTyped(sender.lib, sender.registry, receiver.registry, sender.maxSize, snap, order, key);
    }
  }

  /**
   Sender and receiver with unrelated registries and limits: the message is read exactly if every value
   that is not local-only at the sender and is portable at the receiver decodes there. The handler then
   finds just these, and the sender's chain, cut to the sender's limit, followed by "remote:actor",
   cut to the receiver's.
   */
  lemma CrossRegistryHop(sender: Config, receiver: Config, s: State, order: seq<Key>, actor: Name)
    requires Sends(sender, receiver, s, order)
    ensures var received := ReceivedSnapshot(sender, receiver, s, order);
            && (received.Some? <==>
                  forall k :: Crosses(sender, receiver, k, Lookup(s, k)) ==>
                    Received(sender.lib, sender.registry, receiver.registry, k, Lookup(s, k).value).Ok?)
            && (received.Some? ==>
                  var h := HandlerStore(receiver, received.value, actor);
                  && (forall k :: Lookup(h, k) == Arriving(sender, receiver, k, Lookup(s, k)))
                  && FullChain(h) == Truncate(ScopeChain(s, sender.maxChain) + [RemoteScope(actor)], receiver.maxChain))
  {
    ReceivedWhen(sender, receiver, s, order);
    var received := ReceivedSnapshot(sender, receiver, s, order);
    if received.Some? {
      CrossVersionDecode(sender.lib, sender.registry, receiver.registry, sender.maxSize, CaptureOf(sender, s), order);
      HandlerView(receiver, received.value, actor);
      forall k ensures Lookup(HandlerStore(receiver, received.value, actor), k)
                    == Arriving(sender, receiver, k, Lookup(s, k))
      {
        ArrivesAs(sender, receiver, s, order, k);
      }
    }
  }

  /** The store at the end of a message's way through these actors, each forwarding from its handler. */
  function Forwarded(c: Config, s: State, actors: seq<Name>): State
    decreases actors
  {
    if actors == [] then s else Forwarded(c, HandlerStore(c, CaptureOf(c, s), actors[0]), actors[1..])
  }

  function RemoteScopes(actors: seq<Name>): (names: seq<Name>)
    ensures |names| == |actors| && forall i :: 0 <= i < |actors| ==> names[i] == "remote:" + actors[i]
    decreases actors
  {
    if actors == [] then [] else [RemoteScope(actors[0])] + RemoteScopes(actors[1..])
  }

  /** After any number of hops every key has the value it had after the first. */
  lemma {:induction false} ForwardedLookups(c: Config, s: State, actors: seq<Name>)
    requires actors != []
    ensures forall k :: Lookup(Forwarded(c, s, actors), k) == Projected(c.registry, k, Lookup(s, k))
    decreases actors
  {
    HandlerSees(c, s, actors[0]);
    if |actors| > 1 {
      ForwardedLookups(c, HandlerStore(c, CaptureOf(c, s), actors[0]), actors[1..]);
    }
  }

  /** The chain when these scopes are entered one hop at a time. */
  function HopNames(maxLen: nat, names: seq<Name>, scopes: seq<Name>): seq<Name>
    decreases scopes
  {
    if scopes == [] then names else HopNames(maxLen, Truncate(names + [scopes[0]], maxLen), scopes[1..])
  }

  lemma {:induction false} ForwardedNames(c: Config, s: State, actors: seq<Name>)
    ensures FullChain(Forwarded(c, s, actors)) == HopNames(c.maxChain, FullChain(s), RemoteScopes(actors))
    decreases actors
  {
    if actors != [] {
      HandlerViewOf(c, s, actors[0]);
      ForwardedNames(c, HandlerStore(c, CaptureOf(c, s), actors[0]), actors[1..]);
      assert RemoteScopes(actors)[1..] == RemoteScopes(actors[1..]);
    }
  }

  lemma {:induction false} HopNamesEnd(maxLen: nat, names: seq<Name>, scopes: seq<Name>)
    ensures Truncate(HopNames(maxLen, names, scopes), maxLen) == Truncate(names + scopes, maxLen)
    decreases scopes
  {
    if scopes == [] {
      assert names + [] == names;
    } else {
      var first, rest := [scopes[0]], scopes[1..];
      HopNamesEnd(maxLen, Truncate(names + first, maxLen), rest);
      ScopeNames.TruncateAppend(names + first, rest, maxLen);
      assert (names + first) + rest == names + scopes;
    }
  }

  /** After any number of hops the chain lists the actors passed after the sender's own scopes, up to the limit. */
  lemma ForwardedChain(c: Config, s: State, actors: seq<Name>)
    ensures IsEnd(ScopeChain(Forwarded(c, s, actors), c.maxChain), FullChain(s) + RemoteScopes(actors), c.maxChain)
  {
    ForwardedNames(c, s, actors);
    HopNamesEnd(c.maxChain, FullChain(s), RemoteScopes(actors));
  }
}
