/** Key registrations: types, versions, codecs and migrations (dcontext/src/registry.rs). */
module Registry {
  import opened Wrappers
  import opened Overlays
  import opened Codecs

  type Deserializer = Bytes -> Result<Value, Error>
  type Serializer = Value -> Result<Bytes, Error>

  datatype Registration = Registration(
    key: Key,
    typeId: TypeTag,
    keyVersion: Version,
    deserializers: map<Version, Deserializer>,
    localOnly: bool,
    serializeFn: Option<Serializer>,
    cached: bool)

  type RegistryMap = map<Key, Registration>

  /** What the configure callback of a registration returns; a codec sets both directions at once. */
  datatype Options = Options(version: Version, localOnly: bool, cached: bool, codec: Option<Codec>)

  const DEFAULT_OPTIONS: Options := Options(1, false, false, None)

  // ---- Queries ----

  function CachedKeys(m: RegistryMap): set<Key> {
    set k | k in m && m[k].cached
  }

  predicate IsLocalKey(m: RegistryMap, key: Key) {
    key in m && m[key].localOnly
  }

  predicate IsValidValue(m: RegistryMap, key: Key, value: Value) {
    key in m && m[key].typeId == value.tag
  }

  /** Registered, and allowed to leave the process. */
  predicate IsPortable(m: RegistryMap, key: Key) {
    key in m && !m[key].localOnly
  }

  // ---- The functions a registration installs ----

  function Decoded(tag: TypeTag, payload: Option<nat>): Result<Value, Error> {
    if payload.Some? then Ok(Value(tag, payload.value)) else Err(DeserializationFailed)
  }

  function NativeDeserializer(lib: Backend, tag: TypeTag, codec: Option<Codec>): Deserializer {
    if codec.Some? then (bytes: Bytes) => Decoded(tag, codec.value.decode(bytes))
    else (bytes: Bytes) => Decoded(tag, lib.decode(tag, bytes))
  }

  function NativeSerializer(tag: TypeTag, codec: Option<Codec>): Option<Serializer> {
    if codec.None? then None
    else Some((value: Value) =>
      if value.tag != tag then Err(SerializationFailed)
      else
        var bytes := codec.value.encode(value.payload);
        if bytes.Some? then Ok(bytes.value) else Err(SerializationFailed))
  }

  /** Old bytes decode as the old type; the migrated value has the current type. */
  function MigratingDeserializer(lib: Backend, oldTag: TypeTag, currentTag: TypeTag, migrate: nat -> nat): Deserializer
  {
    (bytes: Bytes) =>
      var payload := lib.decode(oldTag, bytes);
      if payload.Some? then Ok(Value(currentTag, migrate(payload.value))) else Err(DeserializationFailed)
  }

  // ---- Building ----

  function NewRegistration(lib: Backend, key: Key, tag: TypeTag, opts: Options): Registration {
    Registration(key, tag, opts.version,
                 if opts.localOnly then map[] else map[opts.version := NativeDeserializer(lib, tag, opts.codec)],
                 opts.localOnly, NativeSerializer(tag, opts.codec), opts.cached)
  }

  predicate OptionsClash(opts: Options) {
    opts.localOnly && (opts.codec.Some? || opts.version != 1)
  }

  datatype Call =
    | Register(key: Key, tag: TypeTag, opts: Options)
    | Migrate(key: Key, oldTag: TypeTag, currentTag: TypeTag, oldVersion: Version, migrate: nat -> nat)

  /** How a call is answered. */
  function Answer(m: RegistryMap, call: Call): Result<(), Error> {
    match call
    case Register(key, tag, opts) =>
      if OptionsClash(opts) then Err(SerializationFailed)
      else if key in m && m[key].typeId != tag then Err(AlreadyRegistered)
      else Ok(())
    case Migrate(key, _, currentTag, oldVersion, _) =>
      if key !in m then Err(NotRegistered)
      else if m[key].typeId != currentTag then Err(TypeMismatch)
      else if m[key].localOnly then Err(SerializationFailed)
      else if oldVersion == m[key].keyVersion then Err(DeserializationFailed)
      else Ok(())
  }

  /** The registry after a call: a refused call and a repeated registration change nothing. */
  function After(lib: Backend, m: RegistryMap, call: Call): RegistryMap {
    if Answer(m, call).Err? then m
    else
      match call
      case Register(key, tag, opts) =>
        if key in m then m else m[key := NewRegistration(lib, key, tag, opts)]
      case Migrate(key, oldTag, currentTag, oldVersion, migrate) =>
        var f := MigratingDeserializer(lib, oldTag, currentTag, migrate);
        m[key := m[key].(deserializers := m[key].deserializers[oldVersion := f])]
  }

  function AfterAll(lib: Backend, m: RegistryMap, calls: seq<Call>): RegistryMap
    decreases calls
  {
    if calls == [] then m else AfterAll(lib, After(lib, m, calls[0]), calls[1..])
  }

  class RegistryBuilder {
    var entries: RegistryMap

    constructor ()
      ensures entries == map[]
    {
      entries := map[];
    }

    method TryRegisterWith(lib: Backend, key: Key, tag: TypeTag, opts: Options) returns (answer: Result<(), Error>)
      modifies this
      ensures answer == Answer(old(entries), Register(key, tag, opts))
      ensures entries == After(lib, old(entries), Register(key, tag, opts))
    {
      if opts.localOnly {
        if opts.codec.Some? {
          return Err(SerializationFailed);
        }
        if opts.version != 1 {
          return Err(SerializationFailed);
        }
      }
      if key in entries {
        if entries[key].typeId == tag {
          return Ok(());
        }
        return Err(AlreadyRegistered);
      }
      var deserializers: map<Version, Deserializer> := map[];
      if !opts.localOnly {
        deserializers := deserializers[opts.version := NativeDeserializer(lib, tag, opts.codec)];
      }
      var serializeFn := NativeSerializer(tag, opts.codec);
      var reg := Registration(key, tag, opts.version, deserializers, opts.localOnly, serializeFn, opts.cached);
      entries := entries[key := reg];
      return Ok(());
    }

    method TryRegisterMigration(lib: Backend, key: Key, oldTag: TypeTag, currentTag: TypeTag, oldVersion: Version,
                                migrate: nat -> nat)
      returns (answer: Result<(), Error>)
      modifies this
      ensures answer == Answer(old(entries), Migrate(key, oldTag, currentTag, oldVersion, migrate))
      ensures entries == After(lib, old(entries), Migrate(key, oldTag, currentTag, oldVersion, migrate))
    {
      if key !in entries {
        return Err(NotRegistered);
      }
      var reg := entries[key];
      if reg.typeId != currentTag {
        return Err(TypeMismatch);
      }
      if reg.localOnly {
        return Err(SerializationFailed);
      }
      if oldVersion == reg.keyVersion {
        return Err(DeserializationFailed);
      }
      var f := MigratingDeserializer(lib, oldTag, currentTag, migrate);
      entries := entries[key := reg.(deserializers := reg.deserializers[oldVersion := f])];
      return Ok(());
    }
  }

  // ---- What every built registry satisfies ----

  /** The current version is read and written by one codec, the one the key was first registered with. */
  ghost predicate IsNative(lib: Backend, r: Registration, codec: Option<Codec>) {
    && r.keyVersion in r.deserializers
    && r.deserializers[r.keyVersion] == NativeDeserializer(lib, r.typeId, codec)
    && r.serializeFn == NativeSerializer(r.typeId, codec)
  }

  ghost predicate WellFormedEntry(lib: Backend, key: Key, r: Registration) {
    && r.key == key
    && (r.localOnly ==> r.keyVersion == 1 && r.serializeFn.None? && r.deserializers.Keys == {})
    && (!r.localOnly ==> exists codec :: IsNative(lib, r, codec))
    && (forall v, bytes :: v in r.deserializers ==>
          match r.deserializers[v](bytes)
          case Ok(value) => value.tag == r.typeId
          case Err(error) => error == DeserializationFailed)
  }

  ghost predicate WellFormed(lib: Backend, m: RegistryMap) {
    forall k :: k in m ==> WellFormedEntry(lib, k, m[k])
  }

  lemma NewRegistrationWellFormed(lib: Backend, key: Key, tag: TypeTag, opts: Options)
    requires !OptionsClash(opts)
    ensures WellFormedEntry(lib, key, NewRegistration(lib, key, tag, opts))
  {
    var r := NewRegistration(lib, key, tag, opts);
    if opts.localOnly {
      assert r.deserializers == map[];
    } else {
      assert IsNative(lib, r, opts.codec);
      NativeTyped(lib, tag, opts.codec);
    }
  }

  lemma NativeTyped(lib: Backend, tag: TypeTag, codec: Option<Codec>)
    ensures forall bytes ::
              match NativeDeserializer(lib, tag, codec)(bytes)
              case Ok(value) => value.tag == tag
              case Err(error) => error == DeserializationFailed
  {
    var f := NativeDeserializer(lib, tag, codec);
    forall bytes: Bytes
      ensures match f(bytes) case Ok(value) => value.tag == tag case Err(error) => error == DeserializationFailed
    {
      assert f(bytes) == Decoded(tag, if codec.Some? then codec.value.decode(bytes) else lib.decode(tag, bytes));
    }
  }

  lemma MigrationWellFormed(lib: Backend, key: Key, r: Registration, oldTag: TypeTag, oldVersion: Version,
                            migrate: nat -> nat)
    requires WellFormedEntry(lib, key, r) && !r.localOnly && oldVersion != r.keyVersion
    ensures WellFormedEntry(lib, key,
              r.(deserializers := r.deserializers[oldVersion := MigratingDeserializer(lib, oldTag, r.typeId, migrate)]))
  {
    var r' := r.(deserializers := r.deserializers[oldVersion := MigratingDeserializer(lib, oldTag, r.typeId, migrate)]);
    var codec :| IsNative(lib, r, codec);
    assert IsNative(lib, r', codec);
  }

  lemma AfterWellFormed(lib: Backend, m: RegistryMap, call: Call)
    requires WellFormed(lib, m)
    ensures WellFormed(lib, After(lib, m, call))
  {
    if Answer(m, call).Ok? {
      match call
      case Register(key, tag, opts) => NewRegistrationWellFormed(lib, key, tag, opts);
      case Migrate(key, oldTag, _, oldVersion, migrate) =>
        assert WellFormedEntry(lib, key, m[key]);
        MigrationWellFormed(lib, key, m[key], oldTag, oldVersion, migrate);
    }
  }

  /** Whatever is called in whatever order, the registry is well formed. */
  lemma {:induction false} BuiltRegistry(lib: Backend, m: RegistryMap, calls: seq<Call>)
    requires WellFormed(lib, m)
    ensures WellFormed(lib, AfterAll(lib, m, calls))
    decreases calls
  {
    if calls != [] {
      AfterWellFormed(lib, m, calls[0]);
      BuiltRegistry(lib, After(lib, m, calls[0]), calls[1..]);
    }
  }

  // ---- Codecs that round-trip ----

  /** The codec that reads and writes this key's current version round-trips. */
  ghost predicate KeySound(lib: Backend, m: RegistryMap, key: Key) {
    key in m && exists codec :: CodecSound(codec) && IsNative(lib, m[key], codec)
  }

  /** Every registration of this key asks for a codec that round-trips, or for none. */
  ghost predicate CallsSound(calls: seq<Call>, key: Key) {
    forall c :: c in calls && c.Register? && c.key == key ==> CodecSound(c.opts.codec)
  }

  lemma AfterKeySound(lib: Backend, m: RegistryMap, call: Call, key: Key)
    requires IsPortable(m, key) ==> KeySound(lib, m, key)
    requires call.Register? && call.key == key ==> CodecSound(call.opts.codec)
    ensures IsPortable(After(lib, m, call), key) ==> KeySound(lib, After(lib, m, call), key)
  {
    var m' := After(lib, m, call);
    if call.key == key && Answer(m, call).Ok? {
      match call
      case Register(_, tag, opts) =>
        if key !in m && !opts.localOnly { assert IsNative(lib, m'[key], opts.codec); }
      case Migrate(_, _, _, _, _) =>
        var codec :| CodecSound(codec) && IsNative(lib, m[key], codec);
        assert IsNative(lib, m'[key], codec);
    }
  }

  lemma {:induction false} BuiltKeySound(lib: Backend, m: RegistryMap, calls: seq<Call>, key: Key)
    requires IsPortable(m, key) ==> KeySound(lib, m, key)
    requires CallsSound(calls, key)
    ensures IsPortable(AfterAll(lib, m, calls), key) ==> KeySound(lib, AfterAll(lib, m, calls), key)
    decreases calls
  {
    if calls != [] {
      assert calls[0] in calls;
      AfterKeySound(lib, m, calls[0], key);
      BuiltKeySound(lib, After(lib, m, calls[0]), calls[1..], key);
    }
  }

  // ---- What later calls keep ----

  /** Later calls only add keys and migrations: nothing a first registration fixed changes. */
  ghost predicate Extends(m: RegistryMap, m': RegistryMap) {
    forall k :: k in m ==>
      && k in m'
      && m'[k] == m[k].(deserializers := m'[k].deserializers)
      && m[k].deserializers.Keys <= m'[k].deserializers.Keys
      && (m[k].keyVersion in m[k].deserializers ==>
            m'[k].deserializers[m[k].keyVersion] == m[k].deserializers[m[k].keyVersion])
  }

  lemma CallExtends(lib: Backend, m: RegistryMap, call: Call)
    ensures Extends(m, After(lib, m, call))
  {
  }

  lemma ExtendsTwice(a: RegistryMap, b: RegistryMap, c: RegistryMap)
    requires Extends(a, b) && Extends(b, c)
    ensures Extends(a, c)
  {
  }

  lemma {:induction false} CallsOnlyExtend(lib: Backend, m: RegistryMap, calls: seq<Call>)
    ensures Extends(m, AfterAll(lib, m, calls))
    decreases calls
  {
    if calls != [] {
      var next := After(lib, m, calls[0]);
      CallExtends(lib, m, calls[0]);
      CallsOnlyExtend(lib, next, calls[1..]);
      ExtendsTwice(m, next, AfterAll(lib, m, calls));
    }
  }

  /** A registration of this key that is not refused for its options: a local-only key has no codec and no version. */
  predicate Registers(call: Call, key: Key) {
    call.Register? && call.key == key && !(call.opts.localOnly && (call.opts.codec.Some? || call.opts.version != 1))
  }

  /** The first such call's type and options. */
  function FirstRegistration(calls: seq<Call>, key: Key): (first: Option<(TypeTag, Options)>)
    ensures first.None? <==> forall c :: c in calls ==> !Registers(c, key)
    ensures first.Some? ==>
              exists i :: 0 <= i < |calls| && Registers(calls[i], key)
                          && (calls[i].tag, calls[i].opts) == first.value
                          && forall c :: c in calls[..i] ==> !Registers(c, key)
    decreases calls
  {
    if calls == [] then None
    else if Registers(calls[0], key) then
      assert calls[..0] == [];
      Some((calls[0].tag, calls[0].opts))
    else
      var first := FirstRegistration(calls[1..], key);
      assert forall i :: 0 <= i < |calls| - 1 ==> calls[1..][i] == calls[i + 1];
      assert forall i :: 0 <= i < |calls| - 1 ==> calls[..i + 1] == [calls[0]] + calls[1..][..i];
      first
  }

  /** The entry is what a call with this type and these options asked for. */
  ghost predicate AsRequested(lib: Backend, m: RegistryMap, key: Key, tag: TypeTag, opts: Options) {
    && key in m && m[key].key == key
    && m[key].typeId == tag
    && m[key].keyVersion == opts.version
    && m[key].localOnly == opts.localOnly
    && (key in CachedKeys(m) <==> opts.cached)
    && (if opts.localOnly then m[key].serializeFn.None? && m[key].deserializers == map[]
        else IsNative(lib, m[key], opts.codec))
  }

  lemma StaysAsRequested(lib: Backend, m: RegistryMap, calls: seq<Call>, key: Key, tag: TypeTag, opts: Options)
    requires AsRequested(lib, m, key, tag, opts)
    ensures AsRequested(lib, AfterAll(lib, m, calls), key, tag, opts)
    decreases calls
  {
    if calls != [] {
      StaysAsRequested(lib, After(lib, m, calls[0]), calls[1..], key, tag, opts);
    }
  }

  /**
   A key is registered exactly if some call registered it with options that do not clash, and the first
   such call decides its type, version, codec and flags, whatever is called afterwards.
   */
  lemma {:induction false} FirstRegistrationDecides(lib: Backend, m: RegistryMap, calls: seq<Call>, key: Key)
    requires key !in m
    ensures var m', first := AfterAll(lib, m, calls), FirstRegistration(calls, key);
            && (key in m' <==> first.Some?)
            && (first.Some? ==> AsRequested(lib, m', key, first.value.0, first.value.1))
    decreases calls
  {
    if calls != [] {
      var next := After(lib, m, calls[0]);
      if key in next {
        assert AsRequested(lib, next, key, calls[0].tag, calls[0].opts);
        StaysAsRequested(lib, next, calls[1..], key, calls[0].tag, calls[0].opts);
      } else {
        FirstRegistrationDecides(lib, next, calls[1..], key);
      }
    }
  }

  /** How a registration is answered after any calls. */
  lemma RegistrationAnswered(lib: Backend, calls: seq<Call>, key: Key, tag: TypeTag, opts: Options)
    ensures var first := FirstRegistration(calls, key);
            Answer(AfterAll(lib, map[], calls), Register(key, tag, opts))
            == if opts.localOnly && (opts.codec.Some? || opts.version != 1) then Err(SerializationFailed)
               else if first.Some? && first.value.0 != tag then Err(AlreadyRegistered)
               else Ok(())
  {
    FirstRegistrationDecides(lib, map[], calls, key);
  }

  /** How a migration is answered after any calls: the first registration of the key decides. */
  lemma MigrationAnswered(lib: Backend, calls: seq<Call>, key: Key, oldTag: TypeTag, currentTag: TypeTag,
                          oldVersion: Version, migrate: nat -> nat)
    ensures var first := FirstRegistration(calls, key);
            Answer(AfterAll(lib, map[], calls), Migrate(key, oldTag, currentTag, oldVersion, migrate))
            == if first.None? then Err(NotRegistered)
               else if first.value.0 != currentTag then Err(TypeMismatch)
               else if first.value.1.localOnly then Err(SerializationFailed)
               else if first.value.1.version == oldVersion then Err(DeserializationFailed)
               else Ok(())
  {
    FirstRegistrationDecides(lib, map[], calls, key);
  }

  predicate Migrates(call: Call, key: Key, version: Version) {
    call.Migrate? && call.key == key && call.oldVersion == version
  }

  /** An installed migration stays until another one for the same key and version replaces it. */
  lemma {:induction false} MigrationStays(lib: Backend, m: RegistryMap, calls: seq<Call>, key: Key, version: Version)
    requires key in m && version in m[key].deserializers
    requires forall c :: c in calls ==> !Migrates(c, key, version)
    ensures var m' := AfterAll(lib, m, calls);
            && key in m' && version in m'[key].deserializers
            && m'[key].deserializers[version] == m[key].deserializers[version]
    decreases calls
  {
    if calls != [] {
      assert !Migrates(calls[0], key, version);
      MigrationStays(lib, After(lib, m, calls[0]), calls[1..], key, version);
    }
  }
}
