# Verified model of dcontext

dcontext keeps, per thread, a store of scoped key/value pairs: a stack of overlay maps in which entering a
scope freezes the current map into a shared immutable node and leaving it brings the node back. Forks read
through to a frozen parent, wrapped futures swap their store with the thread's cell around every poll, and
snapshots carry a flattened, filtered copy across tasks, actors and processes.

This project models that engine and proves what it promises:

- `Overlays`, `Scopes`: overlay maps and their lookups, and the value of a store with each operation on it.
- `OverlayStack`: the stack of scopes of docs/design.md as a machine of its own, which the store refines.
- `ContextStores`: the mutable store, with the source's loops, proved against `Scopes`.
- `Rollback`, `Forking`, `Caching`, `ScopeNames`: guards, forks, cached keys and scope chains over whole runs.
- `ArcHeap`: the same stores over shared, reference-counted nodes.
- `Cells`: stores moving between thread cells, poll frames, wrapped futures and attach guards, under any schedule;
  `AttachOrder`: attach guards dropped in every order; `OwnWrites`: what a task finds when it runs again.
- `Runtime`: one thread's cell with the crate's functions, guards and wrappers as objects, and well-nested programs.
- `PlainScoping`: the same programs in plain environments, without cell, guards or stores; they see the same.
- `Codecs`, `Registry`, `Snapshots`, `Wire`, `Dactor`: registration, capture, the wire and actor messages.

A value is a type tag and a payload. The serde backend and custom codecs are functions handed in. The results
about whole messages assume only that the backend unpacks the envelopes it packs (`EnvelopeSound`); whether a
value comes back is part of what they state, so codecs that do not round-trip are covered. A hash map's enumeration
order is an arbitrary choice (loops) or a parameter quantified over (lemmas).

## Where the code and its documentation differ

The model follows the code.

- Depths are reused after pops, although dcontext/src/store.rs:41-43 calls them unique: `Rollback.DepthIsReused`;
  when a guard still closes its own scope: `Rollback.GuardClosesItsOwnScope`.
- Past the depth limit a push returns a real depth, not a no-op guard as in docs/design.md:233-234; writes made
  there land in the level below and stay: `Rollback.ExactRollback`, reached by `Rollback.DeadScopeLeaks`.
- A fork links only its parent's own scopes, so a fork of a fork loses what the first inherited:
  `Forking.ForkOfForkForgets`, exactly when: `Forking.ForkAgreesOnLookups`, `Forking.ForkAgreesOnNames`.
- A cached key is not always in the current scope's map (dcontext/src/store.rs:261): `Caching.CachedKeyNotLocal`,
  exactly when: `Caching.CachedKeysAreLocal`.
- Caching, for docs/design.md:118 a matter of faster reads only, can be seen when a fork is forked:
  `Caching.ForkShowsCache`, exactly when: `Caching.ForkRevealsCaching`.
- Local-only values do not survive a local actor hop, although dcontext-dactor/src/outbound.rs:11-12 says so:
  `Dactor.LocalHopLosesLocal`, what survives: `Dactor.HandlerSees`.
- The pair of guards of `attach_snapshot_with_scope`, dropped as a pair, pops the store it restores:
  `Runtime.DropPair`, at an input `Runtime.PairInsideScope`; exactly when that is harmless: `Runtime.PairRestores`.
- An attach guard restores the previous store on drop (dcontext/src/attach.rs:1-4), but what is left after several
  depends on the last one dropped: `AttachOrder.OuterFirstLosesOriginal`, exactly when the original is back:
  `AttachOrder.LastDropDecides`.

## Model

| member | source | states |
|---|---|---|
| Overlays.FirstMatchIsTopmost | docs/design.md:75-86 | a lookup finds a value exactly if it is the one bound by the topmost overlay that binds the key |
| Overlays.FlattenLookup | dcontext/src/store.rs:294-325 | flattening a stack of overlays into one map keeps every lookup |
| OverlayStack.StoreRefinesStack | docs/design.md:75-90 | after any run, forks of forks included, every lookup in the store is the first match in a plain stack of overlay maps driven by the same operations; with cached keys if no fork is forked |
| OverlayStack.PopRefines | docs/design.md:90-90 | leaving drops the maps from the top down to the expected level, past the limit only the count |
| Scopes.ReachableStores | dcontext/src/store.rs:65-246 | every store any run can reach has one node per real level with depths counting down to an unnamed root, no barrier and base depth at most 1; every level above the root can be popped; a lookup inspects at most 2 * 1024 + 2 maps |
| Scopes.PopWhileShape | dcontext/src/store.rs:200-243 | a pop that fires ends exactly one below the expected depth and keeps the shape |
| Scopes.ReachableShape | dcontext/src/store.rs:65-246 | the shape is kept by every run of operations |
| ContextStores.ContextStore.New | dcontext/src/store.rs:64-76 | the empty root store, field by field |
| ContextStores.ContextStore.FromValuesWithChain | dcontext/src/store.rs:80-94 | the root store of a snapshot, with its remote prefix based at depth 1 |
| ContextStores.ContextStore.ForkChild | dcontext/src/store.rs:101-129 | a fresh store equal to the specified fork, the parent untouched |
| ContextStores.ContextStore.PushScope | dcontext/src/store.rs:140-176 | the whole new store, dead pushes included, and the depth returned |
| ContextStores.ContextStore.CopyCached | dcontext/src/store.rs:148-154 | exactly the cached keys that have a value, each with its effective value, in whatever order they are looked up |
| ContextStores.ContextStore.PopScope | dcontext/src/store.rs:190-246 | the loop does what the specified pop does to every field; there is garbage exactly if a real scope was left |
| ContextStores.ContextStore.SetValue | dcontext/src/store.rs:249-255 | writes the current map only and returns what was there |
| ContextStores.ContextStore.GetValue | dcontext/src/store.rs:263-289 | the walk over current map, chain and frozen parent returns the first match in the overlay stack |
| ContextStores.ContextStore.CollectValues | dcontext/src/store.rs:294-325 | the collected map gives every key the value a lookup gives it, whatever the iteration order |
| ContextStores.InsertMissingFromChain | dcontext/src/store.rs:302-311 | walking a chain inwards out adds to a map, for every key it lacks, the chain's first match |
| ContextStores.InsertMissing | dcontext/src/store.rs:307-309 | inserting a node's entries where missing, in any order, keeps what was there and adds the rest |
| ContextStores.ContextStore.GetScopeChain | dcontext/src/store.rs:329-378 | remote prefix, frozen names and local names, each outermost first; of these min(`max_len`, all) entries, or all without a limit, each the same as counted from the innermost end |
| ContextStores.WalkNames | dcontext/src/store.rs:338-352 | collecting names innermost first and reversing them gives the chain's names outermost first |
| Rollback.ExactRollback | dcontext/src/scope.rs:62-73 | after any run that stays above a guard's level, dropping the guard restores every field of the store from before its push; a dead guard alone lets writes through, exactly those made since |
| Rollback.DeadScopeLeaks | dcontext/src/store.rs:140-176 | 1024 entries, all of real scopes, reach a store whose next scope is dead; a value written there is still visible after its guard is dropped |
| Rollback.RunAbove | dcontext/src/store.rs:190-246 | what a level uncovers is unchanged by any run above it |
| Rollback.PopTwice | dcontext/src/store.rs:178-184 | popping to a level and then further is popping further |
| Rollback.DropInAnyOrder | dcontext/src/store.rs:178-246 | dropping guards in any order is one pop to the lowest of them, and ends at the stated depth |
| Rollback.DropOrderIrrelevant | dcontext/src/store.rs:178-246 | any two orders of dropping the same guards end in the same store |
| Rollback.GuardClosesItsOwnScope | dcontext/src/store.rs:40-44 | dropping a guard closes the very scope its push opened if and only if no pop in between went to its depth or lower |
| Rollback.DepthIsReused | dcontext/src/store.rs:40-44 | a run after which a second scope has the first one's depth and the first guard's pop removes the second scope |
| Forking.ForkSeesOwnScopes | dcontext/src/store.rs:101-129 | a fresh fork sees, for every key, the first match in the parent's own scopes, and the parent's remote prefix and own names |
| Forking.ForkAgreesOnLookups | dcontext/src/store.rs:96-129 | parent and fork agree on all lookups if and only if every key bound in the parent's frozen ancestry is bound in its own scopes; always if the parent is no fork |
| Forking.ForkAgreesOnNames | dcontext/src/store.rs:329-378 | parent and fork have the same names if and only if the parent inherited none |
| Forking.ForkOfForkForgets | dcontext/src/store.rs:101-129 | a value that a fork sees and its own fork does not |
| Forking.PushKeepsLookups | dcontext/src/store.rs:131-176 | entering a scope, real or dead, with any cached keys, changes no lookup |
| Forking.PushAppendsName | dcontext/src/store.rs:329-378 | entering a scope appends just its name, if it is real and has one |
| Caching.CacheTransparency | dcontext/src/store.rs:148-173 | under the same operations a store with any cached keys and one with none agree on every lookup and scope chain, in every state and after every pop, if no fork is forked |
| Caching.ForkRevealsCaching | dcontext/src/store.rs:101-176 | a further fork shows the difference if and only if a real scope was entered since the last fork and a cached key is bound in the frozen ancestry but in no own scope |
| Caching.ForkShowsCache | dcontext/src/store.rs:101-176 | a run without a fork of a fork after which a further fork sees a key if it is cached and does not if it is not |
| Caching.CachedKeyNotLocal | dcontext/src/store.rs:257-262 | a run after which a cached key has a value and is not in the current map |
| Caching.CachedKeysAreLocal | dcontext/src/store.rs:257-262 | in every reachable store cached keys with a value are in the current map, except exactly at a fork's root that inherits one unbound |
| Caching.RunRelated | dcontext/src/store.rs:140-246 | the level-by-level relation between caching and plain store is kept by every run |
| ScopeNames.InnermostLast | dcontext/src/store.rs:367-375 | the name of a real scope just entered is the last of the chain under any limit |
| ScopeNames.TruncateAppend | dcontext/src/store.rs:367-375 | cutting a chain early loses nothing that a later cut would keep |
| ScopeNames.ChainOverHops | dcontext/src/lib.rs:70-100 | over any number of captures, attaches, forks and scopes the chain is the innermost `max_len` of all names entered, entry by entry from the end, unless a fork that inherited names is forked; without a limit, if and only if not |
| ScopeNames.TravelKeepsNames | dcontext/src/store.rs:101-176 | prefix, inherited names and own names of a store after any journey, fork of fork included |
| Snapshots.CaptureLookup | dcontext/src/lib.rs:70-84 | a snapshot holds, for every key that is not local-only, what a lookup finds, and no local-only key |
| Snapshots.RebuildLookups | dcontext/src/lib.rs:70-100 | a store rebuilt from a capture sees exactly the original's values that are registered, of the registered type and not local-only |
| Snapshots.RebuildChain | dcontext/src/lib.rs:70-100 | a rebuilt store has the original's scope chain |
| Snapshots.RebuildIdempotent | dcontext/src/lib.rs:70-100 | capturing and rebuilding again gives the same store |
| Snapshots.MergeLookups | dcontext/src/lib.rs:231-240 | after a merge the source wins on every key it binds, all else is kept, and no name moves |
| ArcHeap.PopOneCorrect | dcontext/src/store.rs:219-242 | moving a node out and copying it give the store the same fields back |
| ArcHeap.PopOneKeeps | dcontext/src/store.rs:219-242 | either branch keeps all counts exact and every other store as it was |
| ArcHeap.OnlyReference | dcontext/src/store.rs:219-228 | a node taken apart is referred to by nothing else |
| ArcHeap.Unwrapping | dcontext/src/store.rs:219-228 | a successful unwrap removes the node, hands over its parent's reference and keeps counts exact |
| ArcHeap.Copying | dcontext/src/store.rs:229-241 | a failed unwrap clones the parent's reference, lets go of the node's and keeps counts exact |
| ArcHeap.PushCorrect | dcontext/src/store.rs:156-175 | a push on shared nodes is the specified push, unseen by other stores |
| ArcHeap.ForkCorrect | dcontext/src/store.rs:101-129 | a fork on shared nodes is the specified fork, unseen by other stores, the parent included |
| ArcHeap.PopWhileCorrect | dcontext/src/store.rs:200-243 | a pop over several levels on shared nodes is the specified pop, unseen by other stores |
| ArcHeap.Releasing | dcontext/src/scope.rs:8-18 | dropping a reference keeps counts exact and the contents of every node that remains |
| ArcHeap.ReleaseFrees | dcontext/src/scope.rs:8-18 | dropping a reference frees a node if and only if no other reference reached it |
| ArcHeap.DropFrees | dcontext/src/scope.rs:8-18 | dropping a store frees a node if and only if no other store reached it |
| ArcHeap.SharingIsInvisible | dcontext/src/store.rs:101-246 | after any interleaving of operations on any stores, forks and drops included, every store is what it would be if nothing were shared |
| ArcHeap.EachGoesItsOwnWay | dcontext/src/store.rs:101-246 | after any interleaving on shared nodes a store is what its own pushes, pops and writes alone make of it |
| ArcHeap.NothingLeaks | dcontext/src/scope.rs:8-18 | every allocated node is reachable from a live store |
| ArcHeap.NoStoresNoNodes | dcontext/src/scope.rs:8-18 | when the last store is gone so is the last node |
| Cells.Isolation | dcontext/src/future_ext.rs:24-31 | under every schedule of polls on any threads, nested and migrating, and with attach guards dropped in any order, what a task sees in the cell step by step and what it ends with is what its own steps alone give; likewise a thread outside polls |
| Cells.StepLocal | dcontext/src/future_ext.rs:24-31 | one step changes only its owner, as it would alone; swaps change nobody |
| Cells.StepOnStore | dcontext/src/store.rs:386-398 | a change is applied to the store in the cell, which keeps its identity, and is its owner's store afterwards; an empty cell stays empty; attached and spawned stores are made from the current one |
| Cells.OthersChangeNothing | dcontext/src/future_ext.rs:24-31 | whatever others do on any threads, a task's stores stay as they are |
| OwnWrites.OwnWriteSeen | dcontext/src/store.rs:386-398 | after a task sets a key, and whatever others do until it runs again on any thread, the store it finds is the one it wrote to and a lookup finds the value |
| Cells.SpawnedLocal | dcontext/src/future_ext.rs:41-86 | a wrapped future starts from the store made of its spawner's current one |
| Cells.EndRestores | dcontext/src/future_ext.rs:24-31 | a completed poll leaves the thread's cell and stack exactly as they were, whatever ran meanwhile, and a poll's wrapper has what was in the cell |
| AttachOrder.LastDropDecides | dcontext/src/attach.rs:35-41 | attach guards nested on any thread in any state and dropped in any order leave in the cell what the last one dropped had saved, all else as it was; the original store is back if and only if the outermost is dropped last |
| AttachOrder.OuterFirstLosesOriginal | dcontext/src/attach.rs:35-41 | two guards, the outer dropped first: the first attached store is left in the cell and the original store is nowhere |
| Cells.StepConserves | dcontext/src/attach.rs:35-41 | a step, the drop of any attach guard included, keeps every store in one place; afterwards exactly the stores held before are held, plus the one made, minus the one dropped |
| Cells.RunConserves | dcontext/src/store.rs:383-398 | over whole runs each store is in exactly one place and no swap meets an empty cell or idle wrapper |
| Runtime.PushScope | dcontext/src/lib.rs:111-117 | the cell's store after entering a named scope, and its guard; nothing for an empty cell |
| Runtime.DropScopeGuard | dcontext/src/scope.rs:62-73 | dropping a guard pops the cell's store to its depth; a no-op guard does nothing |
| Runtime.SetContextVariable | dcontext/src/lib.rs:130-137 | the cell's store after a set; nothing for an empty cell |
| Runtime.GetContextVariable | dcontext/src/lib.rs:140-150 | the visible value if and only if it has the type asked for |
| Runtime.MergeWith | dcontext/src/lib.rs:233-240 | writing the source's values one by one in any order is the specified merge |
| Runtime.Clear | dcontext/src/lib.rs:243-247 | a store in the cell is replaced by the empty one |
| Runtime.CaptureFrom | dcontext/src/lib.rs:164-168 | the snapshot of the cell's store, or the empty one |
| Runtime.ForkOf | dcontext/src/lib.rs:173-175 | a fresh fork of the cell's store, or the empty store |
| Runtime.StoreFrom | dcontext/src/lib.rs:86-100 | a fresh store with the specified rebuilt value |
| Runtime.AttachStore | dcontext/src/lib.rs:226-229 | the new store is in the cell and the old one, itself, in the guard |
| Runtime.AttachGuard.Drop | dcontext/src/attach.rs:35-41 | the very store that was replaced is back in the cell |
| Runtime.AttachSnapshotWithScope | dcontext/src/lib.rs:219-223 | the cell's store and both guards |
| Runtime.DropScopeThenAttach | dcontext/src/lib.rs:209-218 | scope guard first: the previous store is back untouched |
| Runtime.DropPair | dcontext/src/lib.rs:209-223 | the pair's own order: the previous store is back but popped to its root |
| Runtime.PairRestores | dcontext/src/lib.rs:209-223 | which leaves it as it was if and only if it was at its root scope |
| Runtime.PairDamages | dcontext/src/lib.rs:209-223 | a reachable store with one scope open that the pair does not give back |
| Runtime.PairInsideScope | dcontext/src/lib.rs:209-223 | run on objects: inside an open scope, attaching with a scope and dropping the pair closes that scope while its guard is still held |
| Runtime.WithContext.Poll | dcontext/src/future_ext.rs:24-31 | the inner future runs on the wrapper's store; the cell gets back the store it had, untouched |
| Runtime.Wrap | dcontext/src/future_ext.rs:41-86 | what a wrapped future sees at its start: depth, scope chain and every lookup, for each way of wrapping and for an empty cell |
| Runtime.MadeStarts | dcontext/src/future_ext.rs:41-86 | a fork sees the first match in the parent's own scopes and its prefix and own names, with a scope also that name at depth 2; a capture the registered, well-typed, not local-only values and the cut chain; an attached snapshot likewise |
| Runtime.MakeStore | dcontext/src/lib.rs:86-229 | the store each way of making one gives: from a snapshot, a fork, a capture, a fork with a scope, or any store at hand |
| Runtime.CurrentChain | dcontext/src/lib.rs:125-127 | the innermost entries of the chain of the cell's store, up to the limit; none for an empty cell |
| Runtime.RunProgram | dcontext/src/lib.rs:111-247 | running a program on cell, guard and wrapper objects leaves the cell's own store with the specified value, and an empty cell empty, and its looks find what is specified, in order, those inside blocks and awaited futures included |
| Runtime.WellNested | dcontext/src/lib.rs:111-240 | a program of scope blocks, blocks with any store attached, awaited futures, sets and merges restores everything but the current values, which change by the writes at its own level or in dead scopes that share it |
| PlainScoping.SeesThePlain | dcontext/src/lib.rs:111-240 | every program sees the same values and chains, look by look, on stores pushed, popped, forked, captured and swapped as in plain environments passed to its blocks |
| PlainScoping.RunFresh | dcontext/src/lib.rs:111-240 | so does a program run on the objects of a fresh thread |
| Registry.RegistryBuilder.TryRegisterWith | dcontext/src/registry.rs:251-341 | the answer and the whole registry after a registration, refusals and repeats included |
| Registry.RegistryBuilder.TryRegisterMigration | dcontext/src/registry.rs:343-393 | the answer and the whole registry after a migration |
| Registry.BuiltRegistry | dcontext/src/registry.rs:251-393 | after any calls, whatever the codecs do: local-only keys have version 1 and no codec at all; any other key's current version is decoded and encoded by one native codec; every deserializer yields the key's type or `DeserializationFailed` |
| Registry.BuiltKeySound | dcontext/src/registry.rs:251-393 | if every registration of a key asks for a codec that round-trips, or for none, the codec the key ends up with round-trips |
| Registry.CallsOnlyExtend | dcontext/src/registry.rs:278-285 | no call changes a registered key's type, version, flags, serializer or native deserializer |
| Registry.FirstRegistrationDecides | dcontext/src/registry.rs:251-341 | a key is registered if and only if some call's options do not clash; its type, version, local-only and cached flags are those the first such call asked for, and its native codec is that call's |
| Registry.RegistrationAnswered | dcontext/src/registry.rs:251-285 | how a registration is answered after any calls, each refusal with its exact condition on those calls |
| Registry.MigrationAnswered | dcontext/src/registry.rs:343-380 | how a migration is answered after any calls: the key's first registration decides |
| Registry.MigrationStays | dcontext/src/registry.rs:380-390 | an installed migration stays until one for the same key and version replaces it |
| Wire.SerializeFrom | dcontext/src/wire.rs:32-69 | the loop over the map serializes its entries in one of its enumeration orders |
| Wire.Pack | dcontext/src/wire.rs:57-68 | bytes never exceed a limit other than 0, and `ContextTooLarge` is the answer exactly when they would |
| Wire.DeserializeToSnapshot | dcontext/src/wire.rs:72-89 | the loop decodes all entries or returns the first error |
| Wire.DecodeSucceeds | dcontext/src/wire.rs:91-122 | entries decode if and only if each one the receiver reads has a deserializer for its version that accepts it |
| Wire.DecodesTo | dcontext/src/wire.rs:79-83 | each key read gets its last entry's value; unknown and local-only keys are skipped |
| Wire.ReadsAnyBytes | dcontext/src/wire.rs:72-136 | any bytes are read if and only if they unpack to an envelope of version 1 or 2 each of whose entries for portable keys has a deserializer that accepts it; each key then has its last entry's value, nothing else is there, the chain is the envelope's, and the only error is `DeserializationFailed` |
| Wire.SerializesExactly | dcontext/src/wire.rs:32-69 | under any built registry a snapshot serializes if and only if every value is encoded by the codec of its key's registration (for its type only) or the backend, unregistered keys at version 1, and the version 2 envelope packs within the limit; the bytes are that envelope's and each error has its cause |
| Wire.CrossVersionDecode | dcontext/src/wire.rs:72-122 | between unrelated registries decoding succeeds if and only if every value of a key portable at the receiver decodes there at its written version, and gives exactly those values and the chain |
| Wire.WireRoundTrip | dcontext/src/wire.rs:32-89 | under any built registry and any entry order, reading back gives exactly the registered, not local-only values and the chain if and only if each of them has its registered type and is returned by its key's codec; with codecs that round-trip, if and only if the types are right |
| Wire.SoundIsFaithful | dcontext/src/registry.rs:300-341 | with codecs and a backend that round-trip, a wrong type is all that keeps a value from coming back |
| Wire.ReadBackTyped | dcontext/src/wire.rs:91-122 | whatever the sender held, a value read back has the type the receiver registered |
| Wire.OldValueArrivesMigrated | dcontext/src/registry.rs:380-390 | a value written at an old version, if the backend returns it, arrives as the migrated value of the current type |
| Dactor.OnSend | dcontext-dactor/src/outbound.rs:53-85 | headers and disposition for local and remote targets, serialization failures under both policies included |
| Dactor.OnReceive | dcontext-dactor/src/inbound.rs:71-105 | a snapshot header is kept; else readable wire bytes become one; else the policy decides |
| Dactor.HandlerSees | dcontext-dactor/src/inbound.rs:107-127 | the handler sees the sender's registered, well-typed, not local-only values and the sender's chain followed by "remote:actor", cut to the limit |
| Dactor.LocalHopLosesLocal | dcontext-dactor/src/outbound.rs:76-82 | a sender sees a local-only value and the handler of its local message does not |
| Dactor.RunHandler | dcontext-dactor/src/inbound.rs:107-127 | run on cell and wrapper objects: the handler's program runs on the specified store and the thread's own store is left untouched; without a snapshot header it runs on that store |
| Dactor.CrossRegistryHop | dcontext-dactor/src/inbound.rs:79-125 | between unrelated registries and limits the message is read if and only if every value that leaves the sender and is portable at the receiver decodes there; the handler then finds just those, and the sender's cut chain followed by "remote:actor", cut again |
| Dactor.RemoteHopIsLocalHop | dcontext-dactor/src/inbound.rs:79-125 | whenever the context serializes, a remote handler starts from the very store a local one does, if and only if every portable value sent is well-typed and returned by its key's codec |
| Dactor.RemoteHop | dcontext-dactor/src/outbound.rs:60-82 | send, transport, receive and wrap, run for any sender, end in the local handler's store if and only if serializing succeeds and every portable value is well-typed and returned; a message without a handler store is rejected or continued as the policy says |
| Dactor.ForwardedLookups | dcontext-dactor/src/inbound.rs:107-127 | after any number of hops every key has the value it had after the first |
| Dactor.ForwardedChain | dcontext-dactor/src/inbound.rs:107-127 | after any number of hops the chain is the sender's followed by every actor passed, cut to the limit |

## Left out

- ContextStores.ContextStore.PopScope: does not state which values the garbage holds, because only the time of their destructors depends on it.
- Cells.Isolation: assumes that an attach guard is dropped in the poll it was made in, and that polls do not unwind.
- Cells.SpawnedLocal: stores are made by any function of the current one, so forks, captures and attached snapshots are instances; dropping a wrapped future is the same as never polling it again.
- Wire.CrossVersionDecode: treats the envelope as one value, so it says nothing about bytes of version 1 that lack the chain field.
- PlainScoping.SeesThePlain: a store handed to a program as a value is well shaped, as `Scopes.ReachableShape` proves every reachable one to be.
- ArcHeap counts references to scope nodes only; the shared remote prefix and the values' own counts are immutable data here.
- Runtime.Clear: resets the store under live guards, so it is not among the operations of the rollback results.
- The backend's byte layout, serde derives and base64: functions with a stated round-trip hypothesis.
- Code that runs while a cell is empty (destructors, clones, callbacks re-entering): a change of a store is one step.
- The two phases of the global registry, locks, atomics and configuration setters: one registry and fixed limits per statement.
- Metadata, type names, error texts and logging.
- Overflow of the depth counter, and `usize::MAX` other than as the guard that does nothing.
- `ContextKey`, macros, `update_context_variable`, `make_wire_bytes`, `with_propagated_context`, the header registry, samples and benches: thin wrappers over what is modelled.
