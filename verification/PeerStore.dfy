/** The peer tables as the store and the session layer update them, command by command. */
module PeerStore {
  import opened Wrappers
  import opened OmemoTypes
  import opened PeerHistory
  import opened PeerSafety

  class Store {
    const suite: Suite
    var identities: map<Address, IdentityRow>
    var pins: map<PinId, Bytes>
    var autoTrust: bool
    /** Every command so far; the tables are what it leads to, so `PeerSafety` applies to them. */
    ghost var log: seq<Op>

    ghost function State(): Peers
      reads this`identities, this`pins, this`autoTrust
    {
      Peers(identities, pins, autoTrust)
    }

    ghost predicate Valid()
      reads this
    {
      State() == Run(suite, log)
    }

    constructor (suite: Suite)
      ensures Valid() && State() == NOBODY && log == [] && this.suite == suite
    {
      this.suite := suite;
      identities, pins, autoTrust, log := map[], map[], true, [];
    }

    method SetAutoTrust(on: bool)
      requires Valid()
      modifies this`autoTrust, this`log
      ensures Valid() && log == old(log) + [Op.SetAutoTrust(on)]
      ensures autoTrust == on
    {
      RunOneMore(suite, log, Op.SetAutoTrust(on));
      autoTrust := on;
      log := log + [Op.SetAutoTrust(on)];
    }

    /** The upsert itself, a part of the commands below. */
    method SaveRow(who: Address, key: Bytes)
      modifies this`identities
      ensures State() == Saved(old(State()), who, key)
    {
      if who !in identities {
        identities := identities[who := IdentityRow(key, if autoTrust then TRUSTED else UNDECIDED, true)];
      } else {
        var row := identities[who];
        identities := identities[who := IdentityRow(key, if row.key == key then row.trust else UNDECIDED, true)];
      }
    }

    /** Returns whether a different key was replaced, which is exactly when the verdict is dropped. */
    method SaveIdentity(who: Address, key: Bytes) returns (replaced: bool)
      requires Valid()
      modifies this`identities, this`log
      ensures Valid() && log == old(log) + [Op.SaveIdentity(who, key)]
      ensures replaced <==> KeyOf(old(State()), who).Some? && KeyOf(old(State()), who) != KeyOf(State(), who)
      ensures who in identities && identities[who].key == key
      ensures replaced ==> identities[who].trust == UNDECIDED
    {
      RunOneMore(suite, log, Op.SaveIdentity(who, key));
      replaced := who in identities && identities[who].key != key;
      SaveRow(who, key);
      log := log + [Op.SaveIdentity(who, key)];
    }

    method SetTrust(who: Address, trust: int)
      requires Valid()
      modifies this`identities, this`log
      ensures Valid() && log == old(log) + [Op.SetTrust(who, trust)]
      ensures who in old(identities) ==> who in identities && identities[who].trust == trust
      ensures forall other :: other != who ==>
                (other in identities <==> other in old(identities))
      ensures forall other :: other in identities && other != who ==> identities[other] == old(identities)[other]
    {
      RunOneMore(suite, log, Op.SetTrust(who, trust));
      if who in identities {
        identities := identities[who := identities[who].(trust := trust)];
      }
      log := log + [Op.SetTrust(who, trust)];
    }

    method ResetPeerState()
      requires Valid()
      modifies this`identities, this`pins, this`log
      ensures Valid() && identities == map[] && pins == map[] && log == old(log) + [ResetPeers]
    {
      RunOneMore(suite, log, ResetPeers);
      identities, pins := map[], map[];
      log := log + [ResetPeers];
    }

    /** libsignal's part of an outbound session: checks, then the identity is filed. */
    method ProcessPreKeyBundle(who: Address, ik: CurveKey, spk: CurveKey, b: Bundle, agrees: bool)
      returns (ok: bool)
      modifies this`identities
      ensures ok <==> Processes(suite, old(State()), who, ik, spk, b, agrees)
      ensures ok <==> agrees && !Blocked(old(State()), who, ik) && SignaturesHold(suite, ik, spk, b)
      ensures State() == if ok then Saved(old(State()), who, ik) else old(State())
    {
      if who in identities && identities[who].key == ik && identities[who].trust == UNTRUSTED {
        return false;
      }
      var kem := ChosenKem(b);
      if !suite.curveVerify(ik, spk, b.spkSig) || !suite.curveVerify(ik, kem.key, kem.sig) {
        return false;
      }
      if !TranscriptVerifies(suite, ik, spk, b) || !agrees {
        return false;
      }
      SaveRow(who, ik);
      ok := true;
    }

    /** Builds an outbound session and pins the post-quantum identity. It fails without changing
        anything, or files the bundle's identity key and pins its post-quantum key; another pin is
        replaced only if the device row is verified at the call. */
    method EstablishSession(who: Address, b: Bundle, agrees: bool) returns (r: Result<(), OmemoError>)
      requires Valid()
      modifies this`identities, this`pins, this`log
      ensures Valid() && log == old(log) + [Establish(who, b, agrees)]
      ensures r.Err? ==> State() == old(State())
      ensures r.Ok? <==> Established(suite, old(State()), who, b, agrees).Ok?
      ensures who in old(identities) && old(identities)[who].trust == UNTRUSTED ==>
                (DecodeCurve(EcDjb(b.ik)) == Some(old(identities)[who].key) ==> r.Err?)
      ensures r.Ok? ==>
        var ik, spk := DecodeCurve(EcDjb(b.ik)), DecodeCurve(EcDjb(b.spk));
        && ik.Some? && spk.Some? && TranscriptVerifies(suite, ik.value, spk.value, b)
        && KeyOf(State(), who) == Some(ik.value)
        && pins == old(pins)[PinFor(who.jid, ik.value) := b.pqIk]
        && (PinFor(who.jid, ik.value) in old(pins) && old(pins)[PinFor(who.jid, ik.value)] != b.pqIk
            ==> IsVerified(old(State()), who))
      ensures r == Err(PqIdentityChanged) ==> !IsVerified(State(), who)
    {
      EstablishedIff(suite, State(), who, b, agrees);
      hide SignaturesHold, BundleReads, EcDjb, DecodeCurve;
      RunOneMore(suite, log, Establish(who, b, agrees));
      log := log + [Establish(who, b, agrees)];
      var read := ReadBundle(suite, b);
      if read.Err? {
        return Err(read.error);
      }
      var ik := read.value;
      var pin := PinFor(who.jid, ik);
      if pin in pins && pins[pin] != b.pqIk {
        if !(who in identities && identities[who].trust == VERIFIED) {
          return Err(PqIdentityChanged);
        }
      }
      var keys := ReadHandshakeKeys(suite, who, b);
      if keys.Err? {
        return Err(keys.error);
      }
      var ok := ProcessPreKeyBundle(who, ik, keys.value, b, agrees);
      if !ok {
        return Err(Signal);
      }
      pins := pins[pin := b.pqIk];
      r := Ok(());
    }

    /** Fills in the pin of a peer whose identity we know but never pinned. */
    method ReconcilePqPin(who: Address, b: Bundle, known: Bytes) returns (r: Result<bool, OmemoError>)
      requires Valid()
      modifies this`pins, this`log
      ensures Valid() && log == old(log) + [Reconcile(who, b, known)]
      ensures r.Ok? <==> Reconciled(suite, old(State()), who, b, known).Ok?
      ensures forall id :: id in old(pins) ==> id in pins && pins[id] == old(pins)[id]
      ensures r == Ok(true) <==> pins != old(pins)
    {
      ReconcileFillsOnly(suite, State(), who, b, known);
      RunOneMore(suite, log, Reconcile(who, b, known));
      log := log + [Reconcile(who, b, known)];
      if !b.HasPqIdentity() {
        return Err(NoPqIdentity);
      }
      var ik := DecodeCurve(EcDjb(b.ik));
      if ik.None? {
        return Err(Signal);
      }
      if ik.value != known {
        return Err(BundleParse);
      }
      var spk := DecodeCurve(EcDjb(b.spk));
      if !suite.pqKeyReadable(b.pqIk) || !suite.pqSigReadable(b.pqSig) || spk.None? {
        return Err(Signal);
      }
      if !TranscriptVerifies(suite, ik.value, spk.value, b) {
        return Err(BadSignature);
      }
      var pin := PinFor(who.jid, ik.value);
      if pin in pins {
        return Ok(false);
      }
      pins := pins[pin := b.pqIk];
      r := Ok(true);
    }

    /** Every verdict in this object belongs to the key it was given for. */
    lemma VerifiedKeysWereVerified(who: Address)
      requires Valid() && IsVerified(State(), who)
      ensures exists i :: 0 <= i < |log| && log[i] == Op.SetTrust(who, VERIFIED)
                && forall j :: i <= j <= |log| ==> KeyOf(After(suite, log, j), who) == KeyOf(State(), who)
    {
      VerifiedMeansThisKeyWasVerified(suite, log, who);
    }
  }
}
