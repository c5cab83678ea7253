/**
  What we know about peers, as a state machine: identity keys with the user's verdict on each, and
  the post-quantum identities pinned to them. Every command is one indivisible step.
 */
module PeerHistory {
  import opened Wrappers
  import opened OmemoTypes
  import opened Hex

  const UNDECIDED: int := 0
  const TRUSTED: int := 1
  const UNTRUSTED: int := 2
  const VERIFIED: int := 3

  datatype Address = Address(jid: string, deviceId: u32)
  datatype IdentityRow = IdentityRow(key: Bytes, trust: int, active: bool)

  /** A pin belongs to a JID and the hex of a classical identity key. */
  datatype PinId = PinId(jid: string, fingerprint: string)

  datatype Peers = Peers(identities: map<Address, IdentityRow>, pins: map<PinId, Bytes>, autoTrust: bool)

  datatype Op =
    | SaveIdentity(who: Address, key: Bytes)
    | SetTrust(who: Address, trust: int)
    | SetAutoTrust(on: bool)
    | Establish(who: Address, bundle: Bundle, agrees: bool)   // `agrees`: the key agreement itself succeeds
    | Reconcile(who: Address, bundle: Bundle, knownKey: Bytes)
    | ResetPeers

  const NOBODY: Peers := Peers(map[], map[], true)

  /** A new device takes the auto-trust setting, an unchanged key keeps its verdict, a replaced key
      has none. */
  function Saved(p: Peers, who: Address, key: Bytes): Peers {
    var trust :=
      if who !in p.identities then (if p.autoTrust then TRUSTED else UNDECIDED)
      else if p.identities[who].key == key then p.identities[who].trust
      else UNDECIDED;
    p.(identities := p.identities[who := IdentityRow(key, trust, true)])
  }

  /** Whether libsignal may build a session toward this key. */
  predicate IsTrustedIdentity(p: Peers, who: Address, key: Bytes) {
    who in p.identities && p.identities[who].key == key ==> p.identities[who].trust != UNTRUSTED
  }

  predicate IsVerified(p: Peers, who: Address) {
    who in p.identities && p.identities[who].trust == VERIFIED
  }

  function PinFor(jid: string, ik: CurveKey): PinId {
    PinId(jid, HexOf(ik))
  }

  function Pinned(p: Peers, who: Address, ik: CurveKey, pqIk: Bytes): Peers {
    p.(pins := p.pins[PinFor(who.jid, ik) := pqIk])
  }

  /** The transcript signature of a bundle verifies under the post-quantum key it carries. */
  predicate TranscriptVerifies(s: Suite, ik: CurveKey, spk: CurveKey, b: Bundle) {
    s.pqVerify(b.pqIk, SignedTranscript(s, ik, b.pqIk, spk, b), b.pqSig)
  }

  /** The KEM key an initiator uses: the first one-time key, else the last-resort key. */
  function ChosenKem(b: Bundle): KemPreKey {
    if b.kemPrekeys != [] then b.kemPrekeys[0] else KemPreKey(b.kemSpkId, b.kemSpk, b.kemSpkSig)
  }

  /** Everything `establish_session` reads from the bundle before it looks anything up. */
  function ReadBundle(s: Suite, b: Bundle): Result<CurveKey, OmemoError> {
    var ik := DecodeCurve(EcDjb(b.ik));
    if !b.SupportsPqxdh() then Err(NoPqxdh)
    else if !b.HasPqIdentity() then Err(NoPqIdentity)
    else if ik.None? || !s.pqKeyReadable(b.pqIk) || !s.pqSigReadable(b.pqSig) then Err(Signal)
    else Ok(ik.value)
  }

  /** A different post-quantum identity is already pinned, and the device is not verified. */
  predicate PinRefused(p: Peers, who: Address, ik: CurveKey, b: Bundle) {
    var pin := PinFor(who.jid, ik);
    pin in p.pins && p.pins[pin] != b.pqIk && !IsVerified(p, who)
  }

  /** The keys the handshake itself needs can be decoded. */
  function ReadHandshakeKeys(s: Suite, who: Address, b: Bundle): Result<CurveKey, OmemoError> {
    var spk := DecodeCurve(EcDjb(b.spk));
    if b.prekeys == [] then Err(BundleParse)
    else if DecodeCurve(EcDjb(b.prekeys[0].1)).None? || !s.kemKeyReadable(ChosenKem(b).key) then Err(Signal)
    else if who.deviceId == 0 || spk.None? then Err(Signal)
    else Ok(spk.value)
  }

  /** libsignal's `process_prekey_bundle` goes through: the identity is not blocked, and the two
      classical signatures and the post-quantum one verify. */
  predicate Processes(s: Suite, p: Peers, who: Address, ik: CurveKey, spk: CurveKey, b: Bundle, agrees: bool) {
    && IsTrustedIdentity(p, who, ik)
    && s.curveVerify(ik, spk, b.spkSig)
    && s.curveVerify(ik, ChosenKem(b).key, ChosenKem(b).sig)
    && TranscriptVerifies(s, ik, spk, b)
    && agrees
  }

  function Established(s: Suite, p: Peers, who: Address, b: Bundle, agrees: bool): Result<Peers, OmemoError> {
    match ReadBundle(s, b)
    case Err(e) => Err(e)
    case Ok(ik) =>
      if PinRefused(p, who, ik, b) then Err(PqIdentityChanged) else
      match ReadHandshakeKeys(s, who, b)
      case Err(e) => Err(e)
      case Ok(spk) =>
        if !Processes(s, p, who, ik, spk, b, agrees) then Err(Signal)
        else Ok(Pinned(Saved(p, who, ik), who, ik, b.pqIk))
  }

  /** Fills in a missing pin. `Ok` carries the new state and whether a pin was written. */
  function Reconciled(s: Suite, p: Peers, who: Address, b: Bundle, known: Bytes): Result<(Peers, bool), OmemoError> {
    var ik := DecodeCurve(EcDjb(b.ik));
    if !b.HasPqIdentity() then Err(NoPqIdentity)
    else if ik.None? then Err(Signal)
    else if ik.value != known then Err(BundleParse)
    else
      var spk := DecodeCurve(EcDjb(b.spk));
      if !s.pqKeyReadable(b.pqIk) || !s.pqSigReadable(b.pqSig) || spk.None? then Err(Signal)
      else if !TranscriptVerifies(s, ik.value, spk.value, b) then Err(BadSignature)
      else if PinFor(who.jid, ik.value) in p.pins then Ok((p, false))
      else Ok((Pinned(p, who, ik.value, b.pqIk), true))
  }

  function Apply(s: Suite, p: Peers, op: Op): Peers {
    match op
    case SaveIdentity(who, key) => Saved(p, who, key)
    case SetTrust(who, trust) =>
      if who in p.identities then p.(identities := p.identities[who := p.identities[who].(trust := trust)]) else p
    case SetAutoTrust(on) => p.(autoTrust := on)
    case Establish(who, b, agrees) =>
      (match Established(s, p, who, b, agrees) case Ok(q) => q case Err(_) => p)
    case Reconcile(who, b, known) =>
      (match Reconciled(s, p, who, b, known) case Ok(q) => q.0 case Err(_) => p)
    case ResetPeers => p.(identities := map[], pins := map[])
  }

  function Run(s: Suite, ops: seq<Op>): Peers {
    if ops == [] then NOBODY else Apply(s, Run(s, ops[..|ops| - 1]), ops[|ops| - 1])
  }

  lemma RunOneMore(s: Suite, ops: seq<Op>, op: Op)
    ensures Run(s, ops + [op]) == Apply(s, Run(s, ops), op)
  {
    assert (ops + [op])[..|ops|] == ops;
  }

  /** The state after the first `n` operations. */
  function After(s: Suite, ops: seq<Op>, n: nat): Peers
    requires n <= |ops|
  {
    Run(s, ops[..n])
  }

  lemma NextState(s: Suite, ops: seq<Op>, n: nat)
    requires n < |ops|
    ensures After(s, ops, n + 1) == Apply(s, After(s, ops, n), ops[n])
  {
    assert ops[..n + 1] == ops[..n] + [ops[n]];
    RunOneMore(s, ops[..n], ops[n]);
  }
}
