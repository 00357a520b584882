/** Bytes, the wire envelope, and the codecs the library is handed: its serde backend and users' own. */
module Codecs {
  import opened Wrappers
  import opened Overlays

  type Bytes = seq<bv8>

  /** A `u32` version number. */
  type Version = v: nat | v < 0x1_0000_0000 witness 1

  datatype Error =
    | NotRegistered
    | AlreadyRegistered
    | TypeMismatch
    | SerializationFailed
    | DeserializationFailed
    | ContextTooLarge

  datatype WireEntry = WireEntry(key: Key, keyVersion: Version, value: Bytes)

  datatype WireContext = WireContext(version: Version, entries: seq<WireEntry>, scopeChain: seq<Name>)

  /** The backend (bincode): one value of a given type, and the whole envelope. */
  datatype Backend = Backend(
    encode: Value -> Option<Bytes>,
    decode: (TypeTag, Bytes) -> Option<nat>,
    pack: WireContext -> Option<Bytes>,
    unpack: Bytes -> Option<WireContext>)

  /** A custom codec for one type. */
  datatype Codec = Codec(encode: nat -> Option<Bytes>, decode: Bytes -> Option<nat>)

  /** Values that encode decode to themselves. */
  ghost predicate ValuesSound(lib: Backend) {
    forall v: Value :: lib.encode(v).Some? ==> lib.decode(v.tag, lib.encode(v).value) == Some(v.payload)
  }

  /** Envelopes that pack unpack to themselves. */
  ghost predicate EnvelopeSound(lib: Backend) {
    forall w: WireContext :: lib.pack(w).Some? ==> lib.unpack(lib.pack(w).value) == Some(w)
  }

  ghost predicate CodecSound(codec: Option<Codec>) {
    codec.Some? ==>
      forall p: nat :: codec.value.encode(p).Some? ==> codec.value.decode(codec.value.encode(p).value) == Some(p)
  }
}
