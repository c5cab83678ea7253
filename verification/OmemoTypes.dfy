/** The entities of the PQ-OMEMO2 crate that are plain values, and what it takes from libsignal. */
module OmemoTypes {
  import opened Wrappers

  type byte = b: nat | b < 256
  type Bytes = seq<byte>
  type u32 = n: nat | n < 0x1_0000_0000

  /** libsignal's type prefix of a serialized Curve25519 public key. */
  const DJB_TYPE: byte := 0x05
  /** First byte of a serialized ML-KEM-1024 public key; Round-3 Kyber-1024 carries 0x08. */
  const ML_KEM_1024_TAG: byte := 0x0A

  /** A Curve25519 public key as libsignal serializes it: the prefix, then 32 bytes. */
  type CurveKey = k: Bytes | |k| == 33 && k[0] == DJB_TYPE witness [DJB_TYPE] + seq(32, _ => 0)

  predicate IsMlKem1024(key: Bytes) {
    |key| > 0 && key[0] == ML_KEM_1024_TAG
  }

  /** Strips libsignal's prefix: the raw 32 bytes that go on the wire. */
  function EcRaw(key: Bytes): Bytes {
    if |key| == 33 && key[0] == DJB_TYPE then key[1..] else key
  }

  /** Puts the prefix back on a raw 32-byte key. */
  function EcDjb(key: Bytes): Bytes {
    if |key| == 32 then [DJB_TYPE] + key else key
  }

  /** The prefix that `EcRaw` takes off, `EcDjb` puts back, once; a key that has it is read as it is. */
  lemma RawThenDjb(key: CurveKey)
    ensures EcDjb(EcRaw(key)) == key && DecodeCurve(EcDjb(EcRaw(key))) == Some(key)
    ensures |EcRaw(key)| == 32
    ensures EcDjb(key) == key && DecodeCurve(key) == Some(key)
  {
    assert [DJB_TYPE] + key[1..] == key;
    assert key[..33] == key;
  }

  /** libsignal's decoding of a public key: the prefix and at least 32 bytes, of which 32 are kept. */
  function DecodeCurve(key: Bytes): Option<CurveKey> {
    if |key| >= 33 && key[0] == DJB_TYPE then Some(key[..33]) else None
  }

  /** A readable KEM pre-key record. Times are epoch milliseconds. */
  datatype KemRecord = KemRecord(publicKey: Bytes, signature: Bytes, timestamp: nat)

  /** A readable signed pre-key record. */
  datatype SpkRecord = SpkRecord(id: u32, publicKey: CurveKey, signature: Bytes, timestamp: nat)

  /** A row of the KEM table. `None` is a blob that cannot be deserialized. */
  datatype KemRow = KemRow(record: Option<KemRecord>, lastResort: bool, used: bool)

  datatype KemPreKey = KemPreKey(id: u32, key: Bytes, sig: Bytes)

  datatype Bundle = Bundle(
    spkId: u32, spk: Bytes, spkSig: Bytes, ik: Bytes,
    prekeys: seq<(u32, Bytes)>,
    kemSpkId: u32, kemSpk: Bytes, kemSpkSig: Bytes,
    kemPrekeys: seq<KemPreKey>,
    pqIk: Bytes, pqSig: Bytes)
  {
    predicate SupportsPqxdh() { kemSpk != [] }
    predicate HasPqIdentity() { pqIk != [] && pqSig != [] }
  }

  datatype OmemoError =
    | BundleParse | Base64 | BadSignature | NoPqxdh | NoPqIdentity | PqIdentityChanged
    | Signal | Aead

  /** What every party computes the same way. The functions are libsignal's; only their use is modelled. */
  datatype Suite = Suite(
    kemBinding: (u32, Bytes, seq<(u32, Bytes)>) -> Bytes,
    transcript: (CurveKey, Bytes, u32, CurveKey, Bytes) -> Bytes,
    curveVerify: (CurveKey, Bytes, Bytes) -> bool,
    pqVerify: (Bytes, Bytes, Bytes) -> bool,
    pqKeyReadable: Bytes -> bool,
    pqSigReadable: Bytes -> bool,
    kemKeyReadable: Bytes -> bool)

  /** Our device: its identity, and the key material and signatures it makes from the n-th draw
      of its random number generator. */
  datatype Device = Device(
    suite: Suite,
    identityKey: CurveKey,
    pqKey: Bytes,
    curveKey: nat -> CurveKey,
    kemKey: nat -> Bytes,
    sign: (Bytes, nat) -> Bytes,
    pqSign: (Bytes, nat) -> Bytes)

  /** The signatures a device makes verify, and nothing it publishes is empty or unreadable. */
  ghost predicate Lawful(d: Device) {
    && (forall m: Bytes, n: nat :: d.suite.curveVerify(d.identityKey, m, d.sign(m, n)))
    && (forall n: nat :: d.suite.kemKeyReadable([ML_KEM_1024_TAG] + d.kemKey(n)))
    && d.pqKey != [] && d.suite.pqKeyReadable(d.pqKey)
    && (forall m: Bytes, n: nat :: d.suite.pqVerify(d.pqKey, m, d.pqSign(m, n)))
    && (forall m: Bytes, n: nat :: d.pqSign(m, n) != [] && d.suite.pqSigReadable(d.pqSign(m, n)))
  }

  /** A KEM key from draw `n`, signed with the next one: the signature is over the whole public key. */
  predicate KemMadeAt(d: Device, record: KemRecord, n: nat) {
    record.publicKey == [ML_KEM_1024_TAG] + d.kemKey(n) && record.signature == d.sign(record.publicKey, n + 1)
  }

  /** A signed pre-key from draw `n`: the signature is over the serialized key, its prefix included. */
  predicate SpkMadeAt(d: Device, record: SpkRecord, n: nat) {
    record.publicKey == d.curveKey(n) && record.signature == d.sign(record.publicKey, n + 1)
  }

  /** What a peer checks of a KEM key, and of a signed pre-key. */
  predicate KemVerifies(d: Device, key: Bytes, sig: Bytes) {
    d.suite.curveVerify(d.identityKey, key, sig) && d.suite.kemKeyReadable(key)
  }

  predicate SpkVerifies(d: Device, key: CurveKey, sig: Bytes) {
    d.suite.curveVerify(d.identityKey, key, sig)
  }

  lemma MadeHereVerifies(d: Device, n: nat)
    requires Lawful(d)
    ensures forall r: KemRecord :: KemMadeAt(d, r, n) ==> KemVerifies(d, r.publicKey, r.signature)
    ensures forall r: SpkRecord :: SpkMadeAt(d, r, n) ==> SpkVerifies(d, r.publicKey, r.signature)
  {
  }

  /** The one-time KEM keys in the form the binding digest takes them, in bundle order. */
  function OneTimeKeys(keys: seq<KemPreKey>): (r: seq<(u32, Bytes)>)
    ensures |r| == |keys|
  {
    seq(|keys|, i requires 0 <= i < |keys| => (keys[i].id, keys[i].key))
  }

  /** What the post-quantum identity signs: identities, signed pre-key, and every KEM key of the bundle. */
  function SignedTranscript(s: Suite, ik: CurveKey, pqIk: Bytes, spk: CurveKey, b: Bundle): Bytes {
    s.transcript(ik, pqIk, b.spkId, spk, s.kemBinding(b.kemSpkId, b.kemSpk, OneTimeKeys(b.kemPrekeys)))
  }
}
