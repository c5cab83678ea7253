/** From our tables to a peer's pin: what we publish is what a peer reads, and it verifies there. */
module PublishedBundle {
  import opened Wrappers
  import opened OmemoTypes
  import opened IdSets
  import opened OwnKeys
  import opened Publishing
  import opened PeerHistory
  import opened PeerSafety
  import BundleXml

  /** What the two ways of building a bundle have in common. */
  ghost predicate Publishable(b: Bundle, d: Device, spk: CurveKey) {
    && b.ik == EcRaw(d.identityKey) && b.pqIk == d.pqKey && b.spk == EcRaw(spk) && SignedBy(d, spk, b)
    && IsMlKem1024(b.kemSpk)
    && (forall i :: 0 <= i < |b.kemPrekeys| ==> IsMlKem1024(b.kemPrekeys[i].key))
    && (forall i :: 0 <= i < |b.prekeys| ==> b.prekeys[i].1 != [] && DecodeCurve(EcDjb(b.prekeys[i].1)).Some?)
  }

  /** A rebuilt bundle is publishable when every KEM row is FIPS 203, as every pass leaves them. */
  lemma RebuiltIsPublishable(b: Bundle, d: Device, kem: map<u32, KemRow>, ec: map<u32, Option<CurveKey>>,
      spk: map<u32, Option<SpkRecord>>, spkId: u32)
    requires Advertises(b, d, kem, ec, spk, spkId)
    requires forall id :: id in kem ==> IsFips203(kem[id])
    ensures Publishable(b, d, spk[spkId].value.publicKey)
  {
    ListedEcKeysAreNotEmpty(b.prekeys, ec, Ascending(ec.Keys));
    var ids := Ascending(Available(kem));
    forall i | 0 <= i < |b.kemPrekeys| ensures IsMlKem1024(b.kemPrekeys[i].key) {
      assert ids[i] in kem;
    }
  }

  lemma ListedEcKeysAreNotEmpty(listed: seq<(u32, Bytes)>, ec: map<u32, Option<CurveKey>>, ids: seq<nat>)
    requires ListsEc(listed, ec, ids)
    ensures forall i :: 0 <= i < |listed| ==> listed[i].1 != [] && DecodeCurve(EcDjb(listed[i].1)).Some?
  {
    forall i | 0 <= i < |listed| ensures listed[i].1 != [] && DecodeCurve(EcDjb(listed[i].1)).Some? {
      assert ids[i] in ec;
      RawThenDjb(ec[ids[i]].value);
    }
  }

  /** So is the first bundle, by what its generation promises. */
  lemma FirstIsPublishable(b: Bundle, d: Device, ec: map<u32, Option<CurveKey>>, first: nat, count: nat, spk: CurveKey)
    requires ListsEc(b.prekeys, ec, Range(first, count))
    requires IsMlKem1024(b.kemSpk) && forall k :: 0 <= k < |b.kemPrekeys| ==> IsMlKem1024(b.kemPrekeys[k].key)
    requires b.spk == EcRaw(spk) && SignedBy(d, spk, b) && b.ik == EcRaw(d.identityKey) && b.pqIk == d.pqKey
    ensures Publishable(b, d, spk)
  {
    ListedEcKeysAreNotEmpty(b.prekeys, ec, Range(first, count));
  }

  /** Main result: what we print parses back to the very bundle, and the transcript a peer recomputes
      from it is the one we signed. */
  lemma PeersReadAndVerifyIt(c: BundleXml.Base64, d: Device, b: Bundle, spk: CurveKey)
    requires BundleXml.Lawful(c) && OmemoTypes.Lawful(d) && Publishable(b, d, spk)
    ensures BundleXml.Parsed(c, BundleXml.Printed(c, b)) == Ok(b)
    ensures DecodeCurve(EcDjb(b.ik)) == Some(d.identityKey) && DecodeCurve(EcDjb(b.spk)) == Some(spk)
    ensures TranscriptVerifies(d.suite, d.identityKey, spk, b)
  {
    RawThenDjb(d.identityKey);
    RawThenDjb(spk);
    var n: nat :| b.pqSig == d.pqSign(SignedTranscript(d.suite, d.identityKey, d.pqKey, spk, b), n);
    BundleXml.KeptEntirely(b);
    BundleXml.PrintedBundleParses(c, b);
  }

  /** Hence a peer that knows our identity key pins our post-quantum identity from it, unless it has
      a pin for us already; and one that knows another key pins nothing. */
  lemma PeersPinIt(c: BundleXml.Base64, d: Device, b: Bundle, spk: CurveKey, p: Peers, us: Address, known: Bytes)
    requires BundleXml.Lawful(c) && OmemoTypes.Lawful(d) && Publishable(b, d, spk)
    ensures var read := BundleXml.Parsed(c, BundleXml.Printed(c, b));
            && read.Ok?
            && (Reconciled(d.suite, p, us, read.value, known).Ok? <==> known == d.identityKey)
            && (known == d.identityKey && PinFor(us.jid, d.identityKey) !in p.pins ==>
                  var q := Reconciled(d.suite, p, us, read.value, known).value.0;
                  q.pins == p.pins[PinFor(us.jid, d.identityKey) := d.pqKey])
  {
    PeersReadAndVerifyIt(c, d, b, spk);
    ReconcileFillsOnly(d.suite, p, us, b, known);
  }

  /** Main result: with the keys that maintenance makes, a bundle that lists a one-time EC key lets every
      peer build a session toward us, through printing and parsing, exactly unless the peer has marked
      our identity key as not to be trusted, or pinned another post-quantum key without having verified
      our device. */
  lemma PeersCanEstablish(c: BundleXml.Base64, d: Device, b: Bundle, spk: CurveKey, p: Peers, us: Address)
    requires BundleXml.Lawful(c) && OmemoTypes.Lawful(d) && Publishable(b, d, spk) && KeysVerify(d, b)
    requires b.prekeys != [] && us.deviceId != 0
    ensures var read := BundleXml.Parsed(c, BundleXml.Printed(c, b));
            && read.Ok?
            && (Established(d.suite, p, us, read.value, true).Ok? <==>
                  && !Blocked(p, us, d.identityKey)
                  && (PinFor(us.jid, d.identityKey) in p.pins && p.pins[PinFor(us.jid, d.identityKey)] != d.pqKey ==>
                        IsVerified(p, us)))
  {
    hide DecodeCurve, EcDjb;
    PeersReadAndVerifyIt(c, d, b, spk);
    PostQuantumPartReads(d, b, spk);
    EstablishedIff(d.suite, p, us, b, true);
  }

  lemma PostQuantumPartReads(d: Device, b: Bundle, spk: CurveKey)
    requires OmemoTypes.Lawful(d) && Publishable(b, d, spk)
    ensures b.pqIk != [] && b.pqSig != [] && d.suite.pqKeyReadable(b.pqIk) && d.suite.pqSigReadable(b.pqSig)
  {
    var n: nat :| b.pqSig == d.pqSign(SignedTranscript(d.suite, d.identityKey, d.pqKey, spk, b), n);
  }
}
