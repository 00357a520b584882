/** Snapshots as bytes and back, across registries (dcontext/src/wire.rs). */
module Wire {
  import opened Wrappers
  import opened Overlays
  import opened Codecs
  import opened Registry
  import opened Snapshots

  const WIRE_VERSION: Version := 2

  // ---- Serializing ----

  /** The key's own serializer if it has one, the backend otherwise. */
  function EncodeValue(lib: Backend, m: RegistryMap, key: Key, value: Value): Result<Bytes, Error> {
    if key in m && m[key].serializeFn.Some? then m[key].serializeFn.value(value)
    else
      var bytes := lib.encode(value);
      if bytes.Some? then Ok(bytes.value) else Err(SerializationFailed)
  }

  function WrittenVersion(m: RegistryMap, key: Key): Version {
    if key in m then m[key].keyVersion else 1
  }

  /** `order` lists these keys, each once. */
  ghost predicate Lists(order: seq<Key>, keys: set<Key>) {
    && (forall k :: k in order <==> k in keys)
    && (forall i, j :: 0 <= i < j < |order| ==> order[i] != order[j])
  }

  lemma ListsOneMore(order: seq<Key>, keys: set<Key>, key: Key)
    requires Lists(order, keys) && key !in keys
    ensures Lists(order + [key], keys + {key}) && (order + [key])[..|order|] == order
  {
    assert forall i :: 0 <= i < |order| ==> order[i] in order;
  }

  /** One of the orders a hash map may enumerate its keys in. */
  ghost predicate Enumerates(order: seq<Key>, values: Overlay) {
    Lists(order, values.Keys)
  }

  function EncodeEntries(lib: Backend, m: RegistryMap, values: Overlay, order: seq<Key>): Result<seq<WireEntry>, Error>
    requires forall k :: k in order ==> k in values
  {
    if order == [] then Ok([])
    else
      var n := |order| - 1;
      var before := EncodeEntries(lib, m, values, order[..n]);
      if before.Err? then before
      else
        var bytes := EncodeValue(lib, m, order[n], values[order[n]]);
        if bytes.Err? then Err(SerializationFailed)
        else Ok(before.value + [WireEntry(order[n], WrittenVersion(m, order[n]), bytes.value)])
  }

  /** The envelope's bytes, unless they exceed a limit other than 0. */
  function Pack(lib: Backend, maxSize: nat, wire: WireContext): (r: Result<Bytes, Error>)
    ensures r.Ok? ==> lib.pack(wire) == Some(r.value) && (maxSize == 0 || |r.value| <= maxSize)
    ensures r == Err(ContextTooLarge) <==> lib.pack(wire).Some? && 0 < maxSize < |lib.pack(wire).value|
  {
    var bytes := lib.pack(wire);
    if bytes.None? then Err(SerializationFailed)
    else if maxSize > 0 && |bytes.value| > maxSize then Err(ContextTooLarge)
    else Ok(bytes.value)
  }

  function Serialize(lib: Backend, m: RegistryMap, maxSize: nat, snap: Snapshot, order: seq<Key>): Result<Bytes, Error>
    requires Enumerates(order, snap.values)
  {
    var entries := EncodeEntries(lib, m, snap.values, order);
    if entries.Err? then Err(entries.error)
    else Pack(lib, maxSize, WireContext(WIRE_VERSION, entries.value, snap.scopeChain))
  }

  /** The loop over the hash map, which takes its keys in some order. */
  method SerializeFrom(lib: Backend, m: RegistryMap, maxSize: nat, snap: Snapshot) returns (r: Result<Bytes, Error>)
    ensures exists order :: Enumerates(order, snap.values) && r == Serialize(lib, m, maxSize, snap, order)
  {
    var entries: seq<WireEntry> := [];
    var pending := snap.values.Keys;
    ghost var order: seq<Key>, done: set<Key> := [], {};
    while pending != {}
      invariant pending <= snap.values.Keys
      invariant Lists(order, done) && done == snap.values.Keys - pending
      invariant EncodeEntries(lib, m, snap.values, order) == Ok(entries)
      decreases |pending|
    {
      var key :| key in pending;
      var bytes := EncodeValue(lib, m, key, snap.values[key]);
      ListsOneMore(order, done, key);
      order, done := order + [key], done + {key};
      pending := pending - {key};
      if bytes.Err? {
        FailureIsFinal(lib, m, snap.values, order, pending);
        return Err(SerializationFailed);
      }
      entries := entries + [WireEntry(key, WrittenVersion(m, key), bytes.value)];
    }
    assert Enumerates(order, snap.values);
    return Pack(lib, maxSize, WireContext(WIRE_VERSION, entries, snap.scopeChain));
  }

  /** Once a prefix of the enumeration has failed, so has every enumeration that continues it. */
  lemma {:induction false} FailureIsFinal(lib: Backend, m: RegistryMap, values: Overlay, prefix: seq<Key>,
                                          pending: set<Key>)
    requires pending <= values.Keys
    requires Lists(prefix, values.Keys - pending)
    requires EncodeEntries(lib, m, values, prefix) == Err(SerializationFailed)
    ensures exists order ::
              Enumerates(order, values) && EncodeEntries(lib, m, values, order) == Err(SerializationFailed)
    decreases |pending|
  {
    if pending == {} {
      assert Enumerates(prefix, values);
    } else {
      var key :| key in pending;
      ListsOneMore(prefix, values.Keys - pending, key);
      assert values.Keys - (pending - {key}) == values.Keys - pending + {key};
      FailureIsFinal(lib, m, values, prefix + [key], pending - {key});
    }
  }

  // ---- Deserializing ----

  /** The receiver reads entries of this key, rather than skipping them. */
  predicate Reads(m: RegistryMap, key: Key) {
    key in m && m[key].deserializers.Keys != {}
  }

  function DecodeEntry(m: RegistryMap, entry: WireEntry): Result<Option<Value>, Error> {
    if !Reads(m, entry.key) then Ok(None)
    else if entry.keyVersion !in m[entry.key].deserializers then Err(DeserializationFailed)
    else
      var value := m[entry.key].deserializers[entry.keyVersion](entry.value);
      if value.Ok? then Ok(Some(value.value)) else Err(value.error)
  }

  function DecodeEntries(m: RegistryMap, entries: seq<WireEntry>): Result<Overlay, Error> {
    if entries == [] then Ok(map[])
    else
      var n := |entries| - 1;
      var before := DecodeEntries(m, entries[..n]);
      if before.Err? then before
      else
        var last := DecodeEntry(m, entries[n]);
        if last.Err? then Err(last.error)
        else Ok(if last.value.Some? then before.value[entries[n].key := last.value.value] else before.value)
  }

  function Unpack(lib: Backend, bytes: Bytes): Result<WireContext, Error> {
    var wire := lib.unpack(bytes);
    if wire.Some? && wire.value.version in {1, 2} then Ok(wire.value) else Err(DeserializationFailed)
  }

  function Deserialize(lib: Backend, m: RegistryMap, bytes: Bytes): Result<Snapshot, Error> {
    var wire := Unpack(lib, bytes);
    if wire.Err? then Err(wire.error)
    else
      var values := DecodeEntries(m, wire.value.entries);
      if values.Err? then Err(values.error) else Ok(Snapshot(values.value, wire.value.scopeChain))
  }

  method DeserializeToSnapshot(lib: Backend, m: RegistryMap, bytes: Bytes) returns (r: Result<Snapshot, Error>)
    ensures r == Deserialize(lib, m, bytes)
  {
    var wire := Unpack(lib, bytes);
    if wire.Err? {
      return Err(wire.error);
    }
    var entries := wire.value.entries;
    var values: Overlay := map[];
    for i := 0 to |entries|
      invariant DecodeEntries(m, entries[..i]) == Ok(values)
    {
      var value := DecodeEntry(m, entries[i]);
      assert entries[..i + 1][..i] == entries[..i];
      if value.Err? {
        FirstFailure(m, entries, i + 1);
        return Err(value.error);
      }
      if value.value.Some? {
        values := values[entries[i].key := value.value.value];
      }
    }
    assert entries[..|entries|] == entries;
    return Ok(Snapshot(values, wire.value.scopeChain));
  }

  lemma {:induction false} FirstFailure(m: RegistryMap, entries: seq<WireEntry>, n: nat)
    requires n <= |entries| && DecodeEntries(m, entries[..n]).Err?
    ensures DecodeEntries(m, entries) == DecodeEntries(m, entries[..n])
    decreases |entries| - n
  {
    if n == |entries| {
      assert entries[..n] == entries;
    } else {
      assert entries[..n + 1][..n] == entries[..n];
      FirstFailure(m, entries, n + 1);
    }
  }

  // ---- Which bytes decode, and to what ----

  predicate Readable(m: RegistryMap, entry: WireEntry) {
    Reads(m, entry.key) ==>
      entry.keyVersion in m[entry.key].deserializers && m[entry.key].deserializers[entry.keyVersion](entry.value).Ok?
  }

  /** The last entry for a key. */
  function LastFor(entries: seq<WireEntry>, key: Key): (last: Option<WireEntry>)
    ensures last.Some? ==> last.value.key == key
  {
    if entries == [] then None
    else
      var n := |entries| - 1;
      if entries[n].key == key then Some(entries[n]) else LastFor(entries[..n], key)
  }

  function ValueOf(m: RegistryMap, entry: Option<WireEntry>): Option<Value> {
    if entry.None? || !Reads(m, entry.value.key) || !Readable(m, entry.value) then None
    else Some(m[entry.value.key].deserializers[entry.value.keyVersion](entry.value.value).value)
  }

  /** Decoding succeeds exactly if every entry the receiver reads has a deserializer for its version that accepts it. */
  lemma {:induction false} DecodeSucceeds(m: RegistryMap, entries: seq<WireEntry>)
    ensures DecodeEntries(m, entries).Ok? <==> forall e :: e in entries ==> Readable(m, e)
  {
    if entries != [] {
      var n := |entries| - 1;
      var before, last := entries[..n], entries[n];
      DecodeSucceeds(m, before);
      assert entries == before + [last];
      assert forall e :: e in entries <==> e in before || e == last;
      assert DecodeEntry(m, last).Ok? <==> Readable(m, last);
    }
  }

  /** Each key the receiver reads gets its last entry's value; no other key appears. */
  lemma {:induction false} DecodesTo(m: RegistryMap, entries: seq<WireEntry>, key: Key)
    requires DecodeEntries(m, entries).Ok?
    ensures Get(DecodeEntries(m, entries).value, key) == ValueOf(m, LastFor(entries, key))
  {
    if entries != [] {
      DecodesTo(m, entries[..|entries| - 1], key);
    }
  }

  /** No later entry has the same key. */
  predicate IsLast(entries: seq<WireEntry>, i: int) {
    0 <= i < |entries| && forall j :: i < j < |entries| ==> entries[j].key != entries[i].key
  }

  lemma {:induction false} LastIs(entries: seq<WireEntry>, key: Key)
    ensures match LastFor(entries, key)
            case None => forall e :: e in entries ==> e.key != key
            case Some(last) => exists i :: IsLast(entries, i) && entries[i] == last
  {
    if entries != [] {
      var n := |entries| - 1;
      if entries[n].key == key {
        assert IsLast(entries, n);
      } else {
        LastIs(entries[..n], key);
        assert entries == entries[..n] + [entries[n]];
        if LastFor(entries, key).Some? {
          var i :| IsLast(entries[..n], i) && entries[..n][i] == LastFor(entries, key).value;
          assert IsLast(entries, i);
        }
      }
    }
  }

  lemma OneLast(entries: seq<WireEntry>, i: int)
    requires IsLast(entries, i)
    ensures LastFor(entries, entries[i].key) == Some(entries[i])
  {
    LastIs(entries, entries[i].key);
    var last := LastFor(entries, entries[i].key);
    assert entries[i] in entries;
    var j :| IsLast(entries, j) && entries[j] == last.value;
  }

  /**
   Any bytes at all, whoever wrote them: they are read exactly if they unpack to an envelope of version
   1 or 2 each of whose entries, of keys registered as portable, has a version with a deserializer that
   accepts it. Each such key then has its last entry's value, nothing else is there, and the chain is the
   envelope's. The only error is `DeserializationFailed`.
   */
  lemma ReadsAnyBytes(lib: Backend, m: RegistryMap, bytes: Bytes)
    requires WellFormed(lib, m)
    ensures Deserialize(lib, m, bytes).Ok? <==>
            && lib.unpack(bytes).Some?
            && (lib.unpack(bytes).value.version == 1 || lib.unpack(bytes).value.version == 2)
            && forall e :: e in lib.unpack(bytes).value.entries && IsPortable(m, e.key) ==>
                 e.keyVersion in m[e.key].deserializers && m[e.key].deserializers[e.keyVersion](e.value).Ok?
    ensures Deserialize(lib, m, bytes).Err? ==> Deserialize(lib, m, bytes).error == DeserializationFailed
    ensures Deserialize(lib, m, bytes).Ok? ==>
              var w, snap := lib.unpack(bytes).value, Deserialize(lib, m, bytes).value;
              && snap.scopeChain == w.scopeChain
              && (forall k :: k in snap.values <==> IsPortable(m, k) && exists e :: e in w.entries && e.key == k)
              && (forall i :: IsLast(w.entries, i) && IsPortable(m, w.entries[i].key) ==>
                    && w.entries[i].key in snap.values
                    && w.entries[i].keyVersion in m[w.entries[i].key].deserializers
                    && Ok(snap.values[w.entries[i].key])
                       == m[w.entries[i].key].deserializers[w.entries[i].keyVersion](w.entries[i].value))
  {
    if lib.unpack(bytes).Some? {
      var w := lib.unpack(bytes).value;
      EntriesRead(lib, m, w.entries);
      if DecodeEntries(m, w.entries).Ok? {
        forall k { KeyRead(lib, m, w.entries, k); }
        forall i | IsLast(w.entries, i) && IsPortable(m, w.entries[i].key) { LastRead(lib, m, w.entries, i); }
      } else {
        OneError(lib, m, w.entries);
      }
    }
  }

  lemma EntriesRead(lib: Backend, m: RegistryMap, entries: seq<WireEntry>)
    requires WellFormed(lib, m)
    ensures DecodeEntries(m, entries).Ok? <==>
            forall e :: e in entries && IsPortable(m, e.key) ==>
              e.keyVersion in m[e.key].deserializers && m[e.key].deserializers[e.keyVersion](e.value).Ok?
  {
    DecodeSucceeds(m, entries);
    forall e | e in entries
      ensures Readable(m, e) <==>
              (IsPortable(m, e.key) ==>
                 e.keyVersion in m[e.key].deserializers && m[e.key].deserializers[e.keyVersion](e.value).Ok?)
    {
      ReadsPortable(lib, m, e.key);
    }
  }

  lemma KeyRead(lib: Backend, m: RegistryMap, entries: seq<WireEntry>, key: Key)
    requires WellFormed(lib, m) && DecodeEntries(m, entries).Ok?
    ensures key in DecodeEntries(m, entries).value <==> IsPortable(m, key) && exists e :: e in entries && e.key == key
  {
    ReadsPortable(lib, m, key);
    DecodesTo(m, entries, key);
    DecodeSucceeds(m, entries);
    LastIs(entries, key);
    if LastFor(entries, key).Some? { assert LastFor(entries, key).value in entries; }
  }

  lemma LastRead(lib: Backend, m: RegistryMap, entries: seq<WireEntry>, i: int)
    requires WellFormed(lib, m) && DecodeEntries(m, entries).Ok?
    requires IsLast(entries, i) && IsPortable(m, entries[i].key)
    ensures var e := entries[i];
            && e.keyVersion in m[e.key].deserializers && e.key in DecodeEntries(m, entries).value
            && Ok(DecodeEntries(m, entries).value[e.key]) == m[e.key].deserializers[e.keyVersion](e.value)
  {
    assert entries[i] in entries;
    ReadsPortable(lib, m, entries[i].key);
    DecodesTo(m, entries, entries[i].key);
    DecodeSucceeds(m, entries);
    OneLast(entries, i);
  }

  lemma {:induction false} OneError(lib: Backend, m: RegistryMap, entries: seq<WireEntry>)
    requires WellFormed(lib, m) && DecodeEntries(m, entries).Err?
    ensures DecodeEntries(m, entries).error == DeserializationFailed
  {
    var n := |entries| - 1;
    if DecodeEntries(m, entries[..n]).Err? {
      OneError(lib, m, entries[..n]);
    } else {
      var e := entries[n];
      assert WellFormedEntry(lib, e.key, m[e.key]);
      assert DecodeEntry(m, e).Err?;
    }
  }

  // ---- Which snapshots serialize, and to what ----

  /** What is written for a key after these calls: its own codec's bytes, or the backend's. */
  function BytesFor(lib: Backend, calls: seq<Call>, key: Key, value: Value): Option<Bytes> {
    var first := FirstRegistration(calls, key);
    if first.None? || first.value.1.codec.None? then lib.encode(value)
    else if value.tag != first.value.0 then None
    else first.value.1.codec.value.encode(value.payload)
  }

  /** The version it is written at: the one registered, or 1. */
  function VersionFor(calls: seq<Call>, key: Key): Version {
    var first := FirstRegistration(calls, key);
    if first.Some? then first.value.1.version else 1
  }

  lemma EncodesAs(lib: Backend, calls: seq<Call>, key: Key, value: Value)
    ensures var m, bytes := AfterAll(lib, map[], calls), BytesFor(lib, calls, key, value);
            && EncodeValue(lib, m, key, value) == (if bytes.Some? then Ok(bytes.value) else Err(SerializationFailed))
            && WrittenVersion(m, key) == VersionFor(calls, key)
  {
    FirstRegistrationDecides(lib, map[], calls, key);
    var first := FirstRegistration(calls, key);
    if first.Some? {
      var f := NativeSerializer(first.value.0, first.value.1.codec);
      if f.Some? {
        assert f.value(value) == EncodeValue(lib, AfterAll(lib, map[], calls), key, value);
      }
    }
  }

  /** The entries in this order, if every value can be encoded. */
  function EntriesFor(lib: Backend, calls: seq<Call>, values: Overlay, order: seq<Key>): seq<WireEntry>
    requires forall k :: k in order ==> k in values && BytesFor(lib, calls, k, values[k]).Some?
  {
    seq(|order|, i requires 0 <= i < |order| =>
      WireEntry(order[i], VersionFor(calls, order[i]), BytesFor(lib, calls, order[i], values[order[i]]).value))
  }

  lemma {:induction false} EncodesAllAs(lib: Backend, calls: seq<Call>, values: Overlay, order: seq<Key>)
    requires forall k :: k in order ==> k in values
    ensures var m := AfterAll(lib, map[], calls);
            EncodeEntries(lib, m, values, order)
            == if forall k :: k in order ==> BytesFor(lib, calls, k, values[k]).Some? then
                 Ok(EntriesFor(lib, calls, values, order))
               else Err(SerializationFailed)
  {
    if order == [] {
      assert EntriesFor(lib, calls, values, order) == [];
    } else {
      var n := |order| - 1;
      var before, last := order[..n], order[n];
      assert order == before + [last];
      assert forall k :: k in order <==> k in before || k == last;
      EncodesAllAs(lib, calls, values, before);
      EncodesAs(lib, calls, last, values[last]);
      if forall k :: k in order ==> BytesFor(lib, calls, k, values[k]).Some? {
        var bytes := BytesFor(lib, calls, last, values[last]).value;
        assert EntriesFor(lib, calls, values, order)
            == EntriesFor(lib, calls, values, before) + [WireEntry(last, VersionFor(calls, last), bytes)];
      }
    }
  }

  /**
   Under a registry built by any calls, whatever order the entries are written in: a snapshot serializes
   exactly if every value is encoded, by its key's own codec (which takes no other type) or by the backend,
   unregistered keys included, and the backend packs the version 2 envelope of these entries within the
   limit; the bytes are that envelope's.
   */
  lemma SerializesExactly(lib: Backend, calls: seq<Call>, maxSize: nat, snap: Snapshot, order: seq<Key>)
    requires Enumerates(order, snap.values)
    ensures var r := Serialize(lib, AfterAll(lib, map[], calls), maxSize, snap, order);
            if exists k :: k in snap.values && BytesFor(lib, calls, k, snap.values[k]).None? then
              r == Err(SerializationFailed)
            else
              var packed := lib.pack(WireContext(2, EntriesFor(lib, calls, snap.values, order), snap.scopeChain));
              r == if packed.None? then Err(SerializationFailed)
                   else if maxSize != 0 && |packed.value| > maxSize then Err(ContextTooLarge)
                   else Ok(packed.value)
  {
    EncodesAllAs(lib, calls, snap.values, order);
  }

  // ---- From one registry to another ----

  /** What the sender wrote for this key, read by the receiver. */
  function Received(lib: Backend, sender: RegistryMap, receiver: RegistryMap, key: Key, value: Value)
    : Result<Value, Error>
  {
    var bytes := EncodeValue(lib, sender, key, value);
    if bytes.Err? then Err(bytes.error)
    else if key !in receiver || WrittenVersion(sender, key) !in receiver[key].deserializers then
      Err(DeserializationFailed)
    else receiver[key].deserializers[WrittenVersion(sender, key)](bytes.value)
  }

  function Written(lib: Backend, m: RegistryMap, values: Overlay, key: Key): Option<WireEntry> {
    if key !in values then None
    else
      var bytes := EncodeValue(lib, m, key, values[key]);
      if bytes.Ok? then Some(WireEntry(key, WrittenVersion(m, key), bytes.value)) else None
  }

  /** What serializing produced: for each key its entry, and nothing else. */
  lemma {:induction false} EncodedEntries(lib: Backend, m: RegistryMap, values: Overlay, order: seq<Key>)
    requires (forall k :: k in order ==> k in values) && EncodeEntries(lib, m, values, order).Ok?
    ensures var entries := EncodeEntries(lib, m, values, order).value;
            && (forall k :: k in order ==>
                  Written(lib, m, values, k).Some? && Written(lib, m, values, k).value in entries)
            && (forall e :: e in entries ==> e.key in order && Some(e) == Written(lib, m, values, e.key))
            && (forall k :: LastFor(entries, k) == if k in order then Written(lib, m, values, k) else None)
  {
    if order != [] {
      var n := |order| - 1;
      var before, last := order[..n], order[n];
      EncodedEntries(lib, m, values, before);
      assert order == before + [last];
      assert forall k :: k in order <==> k in before || k == last;
      var entries, earlier := EncodeEntries(lib, m, values, order).value, EncodeEntries(lib, m, values, before).value;
      var entry := Written(lib, m, values, last).value;
      assert entries == earlier + [entry];
      assert forall e :: e in entries <==> e in earlier || e == entry;
      assert entries[..|entries| - 1] == earlier;
    }
  }

  /**
   Bytes written under one registry and read under another, unrelated one decode exactly if every
   value of a key the receiver holds as portable decodes there, by the deserializer for the version it
   was written in; and then to exactly those values, everything else skipped, with the same chain.
   */
  lemma CrossVersionDecode(lib: Backend, sender: RegistryMap, receiver: RegistryMap, maxSize: nat, snap: Snapshot,
                           order: seq<Key>)
    requires EnvelopeSound(lib) && WellFormed(lib, receiver) && Enumerates(order, snap.values)
    requires Serialize(lib, sender, maxSize, snap, order).Ok?
    ensures var r := Deserialize(lib, receiver, Serialize(lib, sender, maxSize, snap, order).value);
            && (r.Ok? <==> forall k :: k in snap.values && IsPortable(receiver, k) ==>
                             Received(lib, sender, receiver, k, snap.values[k]).Ok?)
            && (r.Ok? ==>
                  && r.value.scopeChain == snap.scopeChain
                  && (forall k :: k in r.value.values <==> k in snap.values && IsPortable(receiver, k))
                  && (forall k :: k in r.value.values ==>
                        Ok(r.value.values[k]) == Received(lib, sender, receiver, k, snap.values[k])))
  {
    var entries := EncodeEntries(lib, sender, snap.values, order).value;
    assert Unpack(lib, Serialize(lib, sender, maxSize, snap, order).value)
        == Ok(WireContext(WIRE_VERSION, entries, snap.scopeChain));
    WrittenReadable(lib, sender, receiver, snap.values, order);
    if DecodeEntries(receiver, entries).Ok? {
      var values := DecodeEntries(receiver, entries).value;
      forall k ensures k in values <==> k in snap.values && IsPortable(receiver, k)
               ensures k in values ==> Ok(values[k]) == Received(lib, sender, receiver, k, snap.values[k])
      {
        WrittenDecodesTo(lib, sender, receiver, snap.values, order, k);
      }
    }
  }

  /** The written entries decode exactly if every portable one does. */
  lemma WrittenReadable(lib: Backend, sender: RegistryMap, receiver: RegistryMap, values: Overlay, order: seq<Key>)
    requires WellFormed(lib, receiver) && Enumerates(order, values) && EncodeEntries(lib, sender, values, order).Ok?
    ensures DecodeEntries(receiver, EncodeEntries(lib, sender, values, order).value).Ok?
       <==> forall k :: k in values && IsPortable(receiver, k) ==> Received(lib, sender, receiver, k, values[k]).Ok?
  {
    var entries := EncodeEntries(lib, sender, values, order).value;
    EncodedEntries(lib, sender, values, order);
    DecodeSucceeds(receiver, entries);
    forall k | k in values
      ensures Readable(receiver, Written(lib, sender, values, k).value)
              <==> (IsPortable(receiver, k) ==> Received(lib, sender, receiver, k, values[k]).Ok?)
    {
      assert k in order;
      ReadsPortable(lib, receiver, k);
    }
  }

  lemma WrittenDecodesTo(lib: Backend, sender: RegistryMap, receiver: RegistryMap, values: Overlay, order: seq<Key>,
                         key: Key)
    requires WellFormed(lib, receiver) && Enumerates(order, values) && EncodeEntries(lib, sender, values, order).Ok?
    requires DecodeEntries(receiver, EncodeEntries(lib, sender, values, order).value).Ok?
    ensures var decoded := DecodeEntries(receiver, EncodeEntries(lib, sender, values, order).value).value;
            && (key in decoded <==> key in values && IsPortable(receiver, key))
            && (key in decoded ==> Ok(decoded[key]) == Received(lib, sender, receiver, key, values[key]))
  {
    var entries := EncodeEntries(lib, sender, values, order).value;
    EncodedEntries(lib, sender, values, order);
    DecodesTo(receiver, entries, key);
    DecodeSucceeds(receiver, entries);
    ReadsPortable(lib, receiver, key);
    assert LastFor(entries, key) == if key in order then Written(lib, sender, values, key) else None;
    if key in values {
      assert Readable(receiver, Written(lib, sender, values, key).value);
    }
  }

  lemma ReadsPortable(lib: Backend, m: RegistryMap, key: Key)
    requires WellFormed(lib, m)
    ensures Reads(m, key) <==> IsPortable(m, key)
  {
    if key in m { assert WellFormedEntry(lib, key, m[key]); }
  }

  /** Every value of a portable key has the type the key is registered with. */
  predicate TypeValid(m: RegistryMap, values: Overlay) {
    forall k :: k in values && IsPortable(m, k) ==> values[k].tag == m[k].typeId
  }

  /** This codec, or the backend without one, decodes what it encodes for this value to the value itself. */
  predicate Returns(lib: Backend, codec: Option<Codec>, value: Value) {
    match codec
    case None =>
      lib.encode(value).Some? ==> lib.decode(value.tag, lib.encode(value).value) == Some(value.payload)
    case Some(own) =>
      own.encode(value.payload).Some? ==> own.decode(own.encode(value.payload).value) == Some(value.payload)
  }

  /** The value has the type its key is registered with, and the codec registered with the key returns it. */
  ghost predicate Faithful(lib: Backend, m: RegistryMap, key: Key, value: Value)
    requires key in m
  {
    value.tag == m[key].typeId && exists codec :: IsNative(lib, m[key], codec) && Returns(lib, codec, value)
  }

  ghost predicate AllFaithful(lib: Backend, m: RegistryMap, values: Overlay) {
    forall k :: k in values && IsPortable(m, k) ==> Faithful(lib, m, k, values[k])
  }

  lemma NativeRoundTrip(lib: Backend, m: RegistryMap, key: Key, value: Value)
    requires IsPortable(m, key) && WellFormedEntry(lib, key, m[key]) && EncodeValue(lib, m, key, value).Ok?
    ensures Received(lib, m, m, key, value) == Ok(value) <==> Faithful(lib, m, key, value)
  {
    var r, bytes := m[key], EncodeValue(lib, m, key, value).value;
    forall codec | IsNative(lib, r, codec)
      ensures Received(lib, m, m, key, value) == Ok(value) <==> value.tag == r.typeId && Returns(lib, codec, value)
    {
      assert NativeDeserializer(lib, r.typeId, codec)(bytes)
          == Decoded(r.typeId, if codec.Some? then codec.value.decode(bytes) else lib.decode(r.typeId, bytes));
      if codec.Some? {
        assert codec.value.encode(value.payload) == Some(bytes);
      }
    }
    var codec :| IsNative(lib, r, codec);
  }

  /** If codecs and backend round-trip, types are all that can go wrong. */
  lemma SoundIsFaithful(lib: Backend, m: RegistryMap, values: Overlay)
    requires ValuesSound(lib) && forall k :: k in values && IsPortable(m, k) ==> KeySound(lib, m, k)
    ensures AllFaithful(lib, m, values) <==> TypeValid(m, values)
  {
    forall k | k in values && IsPortable(m, k) && values[k].tag == m[k].typeId ensures Faithful(lib, m, k, values[k]) {
      assert KeySound(lib, m, k);
      var codec :| CodecSound(codec) && IsNative(lib, m[k], codec);
      assert Returns(lib, codec, values[k]);
    }
  }

  /** The registered, not local-only part of a map. */
  function PortablePart(m: RegistryMap, values: Overlay): Overlay {
    map k | k in values && IsPortable(m, k) :: values[k]
  }

  lemma IsPortablePart(m: RegistryMap, values: Overlay, back: Overlay)
    requires forall k :: k in back <==> k in values && IsPortable(m, k)
    ensures back == PortablePart(m, values) <==> forall k :: k in values && IsPortable(m, k) ==> back[k] == values[k]
  {
    var part := PortablePart(m, values);
    assert back.Keys == part.Keys;
    if back == part {
      assert forall k :: k in part ==> part[k] == values[k];
    }
  }

  lemma WrittenFaithful(lib: Backend, m: RegistryMap, values: Overlay, order: seq<Key>, key: Key)
    requires Enumerates(order, values) && EncodeEntries(lib, m, values, order).Ok? && WellFormed(lib, m)
    requires key in values && IsPortable(m, key)
    ensures Received(lib, m, m, key, values[key]) == Ok(values[key]) <==> Faithful(lib, m, key, values[key])
  {
    EncodedEntries(lib, m, values, order);
    assert Written(lib, m, values, key).Some?;
    NativeRoundTrip(lib, m, key, values[key]);
  }

  lemma RoundTrip(lib: Backend, m: RegistryMap, maxSize: nat, snap: Snapshot, order: seq<Key>)
    requires EnvelopeSound(lib) && WellFormed(lib, m) && Enumerates(order, snap.values)
    requires Serialize(lib, m, maxSize, snap, order).Ok?
    ensures Deserialize(lib, m, Serialize(lib, m, maxSize, snap, order).value)
            == Ok(Snapshot(PortablePart(m, snap.values), snap.scopeChain))
       <==> AllFaithful(lib, m, snap.values)
  {
    var r := Deserialize(lib, m, Serialize(lib, m, maxSize, snap, order).value);
    CrossVersionDecode(lib, m, m, maxSize, snap, order);
    forall k | k in snap.values && IsPortable(m, k)
      ensures Received(lib, m, m, k, snap.values[k]) == Ok(snap.values[k]) <==> Faithful(lib, m, k, snap.values[k])
    {
      WrittenFaithful(lib, m, snap.values, order, k);
    }
    if r.Ok? {
      IsPortablePart(m, snap.values, r.value.values);
    }
  }

  /**
   Under a registry built by any calls, whatever order the entries are written in: reading back gives
   the registered, not local-only part of the values and the same chain exactly if each of these values
   has the type its key is registered with and is returned by the codec registered with it. With codecs
   that round-trip, exactly if the types are right.
   */
  lemma WireRoundTrip(lib: Backend, calls: seq<Call>, maxSize: nat, snap: Snapshot, order: seq<Key>)
    requires EnvelopeSound(lib) && Enumerates(order, snap.values)
    requires Serialize(lib, AfterAll(lib, map[], calls), maxSize, snap, order).Ok?
    ensures var m := AfterAll(lib, map[], calls);
            var back := Deserialize(lib, m, Serialize(lib, m, maxSize, snap, order).value);
            var intact := back == Ok(Snapshot(PortablePart(m, snap.values), snap.scopeChain));
            && (intact <==> AllFaithful(lib, m, snap.values))
            && (ValuesSound(lib) && (forall k :: k in snap.values ==> CallsSound(calls, k)) ==>
                  (intact <==> TypeValid(m, snap.values)))
  {
    var m := AfterAll(lib, map[], calls);
    BuiltRegistry(lib, map[], calls);
    RoundTrip(lib, m, maxSize, snap, order);
    if ValuesSound(lib) && forall k :: k in snap.values ==> CallsSound(calls, k) {
      forall k | k in snap.values && IsPortable(m, k) ensures KeySound(lib, m, k) {
        BuiltKeySound(lib, map[], calls, k);
      }
      SoundIsFaithful(lib, m, snap.values);
    }
  }

  /** Whatever the sender held, a value read back has the type the receiver registered. */
  lemma ReadBackTyped(lib: Backend, sender: RegistryMap, receiver: RegistryMap, maxSize: nat, snap: Snapshot,
                      order: seq<Key>, key: Key)
    requires EnvelopeSound(lib) && WellFormed(lib, receiver) && Enumerates(order, snap.values)
    requires Serialize(lib, sender, maxSize, snap, order).Ok?
    requires Deserialize(lib, receiver, Serialize(lib, sender, maxSize, snap, order).value).Ok?
    requires key in snap.values && IsPortable(receiver, key)
    ensures var values := Deserialize(lib, receiver, Serialize(lib, sender, maxSize, snap, order).value).value.values;
            key in values && IsValidValue(receiver, key, values[key])
  {
    CrossVersionDecode(lib, sender, receiver, maxSize, snap, order);
    assert WellFormedEntry(lib, key, receiver[key]);
  }

  /**
   A value written by a sender that still has the key's old type, without a codec of its own, arrives
   migrated: the receiver, once a migration from that version was accepted and not replaced since,
   reads it as the migrated value of the current type.
   */
  lemma OldValueArrivesMigrated(lib: Backend, sender: RegistryMap, m: RegistryMap, migration: Call, later: seq<Call>,
                                value: Value)
    requires Returns(lib, None, value) && migration.Migrate? && Answer(m, migration).Ok?
    requires forall c :: c in later ==> !Migrates(c, migration.key, migration.oldVersion)
    requires migration.key in sender && sender[migration.key].serializeFn.None?
    requires sender[migration.key].keyVersion == migration.oldVersion && value.tag == migration.oldTag
    requires EncodeValue(lib, sender, migration.key, value).Ok?
    ensures Received(lib, sender, AfterAll(lib, After(lib, m, migration), later), migration.key, value)
         == Ok(Value(migration.currentTag, migration.migrate(value.payload)))
  {
    MigrationStays(lib, After(lib, m, migration), later, migration.key, migration.oldVersion);
    var f := MigratingDeserializer(lib, migration.oldTag, migration.currentTag, migration.migrate);
    assert After(lib, m, migration)[migration.key].deserializers[migration.oldVersion] == f;
    var bytes := EncodeValue(lib, sender, migration.key, value).value;
    assert f(bytes) == Ok(Value(migration.currentTag, migration.migrate(value.payload)));
  }
}
