/** What holds of trust and pins in every run of `PeerHistory`. */
module PeerSafety {
  import opened Wrappers
  import opened OmemoTypes
  import opened Hex
  import opened PeerHistory

  // ---- trust ------------------------------------------------------------

  function KeyOf(p: Peers, who: Address): Option<Bytes> {
    if who in p.identities then Some(p.identities[who].key) else None
  }

  /** Step `i` is where the verdict on `who` comes from: the user gave it on the key that is still
      there, or the key came in at that step, as a new device or in place of another key. */
  ghost predicate Origin(s: Suite, ops: seq<Op>, i: nat, who: Address, key: Bytes, trust: int)
    requires i < |ops|
  {
    var p := After(s, ops, i);
    if KeyOf(p, who) == Some(key) then ops[i] == SetTrust(who, trust)
    else
      && KeyOf(After(s, ops, i + 1), who) == Some(key)
      && trust == (if KeyOf(p, who).None? && p.autoTrust then 1 else 0)
  }

  /** From step `i` on the key of `who` is `key`, and nobody gave a verdict on it. */
  ghost predicate Settled(s: Suite, ops: seq<Op>, i: nat, who: Address, key: Bytes)
    requires i < |ops|
  {
    && (forall j :: i < j <= |ops| ==> KeyOf(After(s, ops, j), who) == Some(key))
    && (forall j :: i < j < |ops| && ops[j].SetTrust? ==> ops[j].who != who)
  }

  /** One step on one row. Nothing but a reset removes it, nothing but a decision changes the verdict
      on an unchanged key, and a changed key has none. */
  lemma RowStep(s: Suite, p: Peers, op: Op, who: Address)
    ensures var q := Apply(s, p, op);
            && (who in p.identities && op != ResetPeers ==> who in q.identities)
            && (who in q.identities ==>
                  var trust := q.identities[who].trust;
                  if who !in p.identities then
                    && trust == (if p.autoTrust then 1 else 0)
                    && (op.SetTrust? ==> op.who != who)
                  else if q.identities[who].key != p.identities[who].key then
                    trust == 0 && (op.SetTrust? ==> op.who != who)
                  else if op.SetTrust? && op.who == who then
                    trust == op.trust
                  else
                    trust == p.identities[who].trust)
  {
  }

  lemma StepIsOrigin(s: Suite, ops: seq<Op>, who: Address)
    requires ops != []
    requires who in Run(s, ops).identities
    ensures var n := |ops| - 1;
            var row := Run(s, ops).identities[who];
            || Origin(s, ops, n, who, row.key, row.trust)
            || (&& who in After(s, ops, n).identities
                && After(s, ops, n).identities[who].key == row.key
                && After(s, ops, n).identities[who].trust == row.trust
                && (ops[n].SetTrust? ==> ops[n].who != who))
  {
    var n := |ops| - 1;
    NextState(s, ops, n);
    assert ops[..n + 1] == ops;
    RowStep(s, After(s, ops, n), ops[n], who);
  }

  /** Where every verdict in a reachable state comes from. This fixes `trust` entirely: the last
      decision on the key that is there, or, with none, 0 for a key that replaced another and the
      auto-trust setting of the moment for a new device. */
  lemma {:induction false} EveryVerdictHasAnOrigin(s: Suite, ops: seq<Op>, who: Address) returns (i: nat)
    requires who in Run(s, ops).identities
    ensures i < |ops|
    ensures var row := Run(s, ops).identities[who];
            Origin(s, ops, i, who, row.key, row.trust) && Settled(s, ops, i, who, row.key)
  {
    hide Apply;
    var n := |ops| - 1;
    var row := Run(s, ops).identities[who];
    StepIsOrigin(s, ops, who);
    assert ops[..n + 1] == ops;
    if Origin(s, ops, n, who, row.key, row.trust) {
      i := n;
    } else {
      var front := ops[..n];
      i := EveryVerdictHasAnOrigin(s, front, who);
      forall j | 0 <= j <= n ensures After(s, front, j) == After(s, ops, j) {
        assert front[..j] == ops[..j];
      }
      forall j | i < j <= |ops| ensures KeyOf(After(s, ops, j), who) == Some(row.key) {
        if j <= n { assert KeyOf(After(s, front, j), who) == Some(row.key); }
      }
      assert forall j :: i < j < n ==> ops[j] == front[j];
    }
  }

  /** A verified row holds exactly the key that was there when the user decided so. */
  lemma VerifiedMeansThisKeyWasVerified(s: Suite, ops: seq<Op>, who: Address)
    requires IsVerified(Run(s, ops), who)
    ensures exists i :: 0 <= i < |ops| && ops[i] == SetTrust(who, VERIFIED)
              && forall j :: i <= j <= |ops| ==> KeyOf(After(s, ops, j), who) == KeyOf(Run(s, ops), who)
  {
    var i := EveryVerdictHasAnOrigin(s, ops, who);
    var key := Run(s, ops).identities[who].key;
    assert KeyOf(After(s, ops, i), who) == Some(key);
    assert ops[i] == SetTrust(who, VERIFIED);
    forall j | i <= j <= |ops| ensures KeyOf(After(s, ops, j), who) == KeyOf(Run(s, ops), who) {
      if j > i { assert KeyOf(After(s, ops, j), who) == Some(key); }
    }
  }

  /** A key that took the place of another has no verdict until the user gives one, however many
      further keys take its place in the meantime. */
  lemma {:induction false} ReplacedKeyStaysUndecided(s: Suite, ops: seq<Op>, i: nat, who: Address)
    requires i < |ops|
    requires KeyOf(After(s, ops, i), who).Some? && KeyOf(After(s, ops, i + 1), who).Some?
    requires KeyOf(After(s, ops, i), who) != KeyOf(After(s, ops, i + 1), who)
    requires forall j :: i < j < |ops| ==> ops[j] != ResetPeers && (ops[j].SetTrust? ==> ops[j].who != who)
    ensures who in Run(s, ops).identities && Run(s, ops).identities[who].trust == UNDECIDED
  {
    var n := |ops| - 1;
    NextState(s, ops, n);
    assert ops[..n + 1] == ops;
    RowStep(s, After(s, ops, n), ops[n], who);
    if i < n {
      var front := ops[..n];
      assert front[..i] == ops[..i] && front[..i + 1] == ops[..i + 1];
      assert forall j :: i < j < n ==> ops[j] == front[j];
      ReplacedKeyStaysUndecided(s, front, i, who);
    }
  }

  // ---- pins -------------------------------------------------------------

  /** `op` may write the pin `id`, and does so from a bundle whose transcript signature verifies. */
  ghost predicate WritesPin(s: Suite, op: Op, id: PinId, value: Bytes) {
    && (op.Establish? || op.Reconcile?)
    && op.who.jid == id.jid && op.bundle.pqIk == value
    && var ik, spk := DecodeCurve(EcDjb(op.bundle.ik)), DecodeCurve(EcDjb(op.bundle.spk));
       && ik.Some? && spk.Some? && id == PinFor(id.jid, ik.value)
       && TranscriptVerifies(s, ik.value, spk.value, op.bundle)
  }

  /** One step on one pin. It changes only through an outbound session toward a verified device, it
      appears only from a verified transcript, and it goes away only in a reset. */
  lemma PinStep(s: Suite, p: Peers, op: Op, id: PinId)
    ensures id in p.pins && id in Apply(s, p, op).pins && Apply(s, p, op).pins[id] != p.pins[id] ==>
              op.Establish? && IsVerified(p, op.who) && WritesPin(s, op, id, Apply(s, p, op).pins[id])
    ensures id !in p.pins && id in Apply(s, p, op).pins ==> WritesPin(s, op, id, Apply(s, p, op).pins[id])
    ensures id in p.pins && id !in Apply(s, p, op).pins ==> op.ResetPeers?
  {
  }

  /** Step `j` is an outbound session toward a device that was verified at that moment, and writes the pin. */
  ghost predicate ReplacesPin(s: Suite, ops: seq<Op>, j: nat, id: PinId, value: Bytes)
    requires j < |ops|
  {
    ops[j].Establish? && IsVerified(After(s, ops, j), ops[j].who) && WritesPin(s, ops[j], id, value)
  }

  /** Main result on pins: over any stretch of a run without a reset, a pin survives, and if its
      value is another one at the end, one of the steps was an outbound session toward a device that
      was verified at that moment, and wrote just that value from a bundle for this JID and key. */
  lemma {:induction false} PinChangesOnlyWhenVerified(s: Suite, ops: seq<Op>, from: nat, id: PinId)
    requires from <= |ops| && id in After(s, ops, from).pins
    requires forall j :: from <= j < |ops| ==> ops[j] != ResetPeers
    ensures id in Run(s, ops).pins
    ensures Run(s, ops).pins[id] != After(s, ops, from).pins[id] ==>
              exists j :: from <= j < |ops| && ReplacesPin(s, ops, j, id, Run(s, ops).pins[id])
  {
    if from == |ops| {
      assert ops[..from] == ops;
    } else {
      var n := |ops| - 1;
      var front := ops[..n];
      assert front[..from] == ops[..from];
      assert forall j :: from <= j < n ==> front[j] == ops[j];
      PinChangesOnlyWhenVerified(s, front, from, id);
      hide Apply, WritesPin, IsVerified, Run;
      NextState(s, ops, n);
      assert ops[..n + 1] == ops;
      PinStep(s, After(s, ops, n), ops[n], id);
      var value := Run(s, ops).pins[id];
      if value != After(s, ops, from).pins[id] && value == After(s, ops, n).pins[id] {
        var j :| from <= j < n && ReplacesPin(s, front, j, id, value);
        assert front[..j] == ops[..j];
        assert ReplacesPin(s, ops, j, id, value);
      } else if value != After(s, ops, from).pins[id] {
        assert ReplacesPin(s, ops, n, id, value);
      }
    }
  }

  /** Every pin in a reachable state was written by a step that verified its transcript signature,
      for exactly this JID and classical key. */
  lemma {:induction false} EveryPinWasVerified(s: Suite, ops: seq<Op>, id: PinId)
    requires id in Run(s, ops).pins
    ensures exists j :: 0 <= j < |ops| && WritesPin(s, ops[j], id, Run(s, ops).pins[id])
  {
    var n := |ops| - 1;
    NextState(s, ops, n);
    assert ops[..n + 1] == ops;
    PinStep(s, After(s, ops, n), ops[n], id);
    if !WritesPin(s, ops[n], id, Run(s, ops).pins[id]) {
      EveryPinWasVerified(s, ops[..n], id);
      var j :| 0 <= j < n && WritesPin(s, ops[..n][j], id, Run(s, ops[..n]).pins[id]);
      assert ops[j] == ops[..n][j];
    }
  }

  /** A step taken for one JID leaves every other JID's pins alone, and two classical keys of one JID
      have different pins. */
  lemma PinsOfOthersAreUntouched(s: Suite, p: Peers, op: Op, id: PinId)
    requires op.Establish? || op.Reconcile?
    requires op.who.jid != id.jid
    ensures id in p.pins <==> id in Apply(s, p, op).pins
    ensures id in p.pins ==> Apply(s, p, op).pins[id] == p.pins[id]
  {
  }

  lemma PinsOfTwoKeysAreDistinct(jid: string, a: CurveKey, b: CurveKey)
    ensures PinFor(jid, a) == PinFor(jid, b) <==> a == b
  {
    if HexOf(a) == HexOf(b) {
      HexIsInjective(a, b);
    }
  }

  /** Filling in a pin succeeds exactly under the two conditions its documentation names, and then
      never touches a pin that is there. */
  lemma ReconcileFillsOnly(s: Suite, p: Peers, who: Address, b: Bundle, known: Bytes)
    ensures Reconciled(s, p, who, b, known).Ok? <==>
      var ik, spk := DecodeCurve(EcDjb(b.ik)), DecodeCurve(EcDjb(b.spk));
      && b.HasPqIdentity() && s.pqKeyReadable(b.pqIk) && s.pqSigReadable(b.pqSig)
      && ik.Some? && ik.value == known && spk.Some? && TranscriptVerifies(s, ik.value, spk.value, b)
    ensures Reconciled(s, p, who, b, known).Ok? ==>
      var (q, written) := Reconciled(s, p, who, b, known).value;
      && q.identities == p.identities
      && (forall id :: id in p.pins ==> id in q.pins && q.pins[id] == p.pins[id])
      && (written <==> q.pins != p.pins)
  {
    var r := Reconciled(s, p, who, b, known);
    if r.Ok? && r.value.1 {
      var id := PinFor(who.jid, DecodeCurve(EcDjb(b.ik)).value);
      assert id in r.value.0.pins && id !in p.pins;
    }
  }

  // ---- when an outbound session is built ---------------------------------

  /** The bundle carries every part, and each can be decoded. */
  predicate BundleReads(s: Suite, b: Bundle) {
    && b.kemSpk != [] && b.pqIk != [] && b.pqSig != [] && b.prekeys != []
    && DecodeCurve(EcDjb(b.ik)).Some? && DecodeCurve(EcDjb(b.spk)).Some? && DecodeCurve(EcDjb(b.prekeys[0].1)).Some?
    && s.pqKeyReadable(b.pqIk) && s.pqSigReadable(b.pqSig)
    && s.kemKeyReadable(if |b.kemPrekeys| > 0 then b.kemPrekeys[0].key else b.kemSpk)
  }

  /** Three signatures hold: the signed pre-key's, that of the KEM key an initiator takes (a one-time key
      whenever the bundle has one), and the post-quantum one over everything the bundle binds. */
  predicate SignaturesHold(s: Suite, ik: CurveKey, spk: CurveKey, b: Bundle) {
    && s.curveVerify(ik, spk, b.spkSig)
    && (if |b.kemPrekeys| > 0 then s.curveVerify(ik, b.kemPrekeys[0].key, b.kemPrekeys[0].sig)
        else s.curveVerify(ik, b.kemSpk, b.kemSpkSig))
    && s.pqVerify(b.pqIk,
                  s.transcript(ik, b.pqIk, b.spkId, spk, s.kemBinding(b.kemSpkId, b.kemSpk, OneTimeKeys(b.kemPrekeys))),
                  b.pqSig)
  }

  /** The user has marked this very key of the device as not to be trusted. */
  predicate Blocked(p: Peers, who: Address, key: Bytes) {
    who in p.identities && p.identities[who].key == key && p.identities[who].trust == 2
  }

  /** Main result: exactly when an outbound session is built, with every check spelled out. */
  lemma EstablishedIff(s: Suite, p: Peers, who: Address, b: Bundle, agrees: bool)
    ensures Established(s, p, who, b, agrees).Ok? <==>
              && BundleReads(s, b) && who.deviceId != 0 && agrees
              && var ik, spk := DecodeCurve(EcDjb(b.ik)).value, DecodeCurve(EcDjb(b.spk)).value;
                 && SignaturesHold(s, ik, spk, b)
                 && !Blocked(p, who, ik)
                 && var pin := PinId(who.jid, HexOf(ik));
                    (pin !in p.pins || p.pins[pin] == b.pqIk || (who in p.identities && p.identities[who].trust == 3))
  {
    hide DecodeCurve, EcDjb, OneTimeKeys;
  }

  /** A key that is marked as not to be trusted gets no session, and the attempt changes nothing. */
  lemma BlockedKeyIsRefused(s: Suite, p: Peers, who: Address, b: Bundle, agrees: bool)
    requires who in p.identities && p.identities[who].trust == 2
    requires DecodeCurve(EcDjb(b.ik)) == Some(p.identities[who].key)
    ensures Established(s, p, who, b, agrees).Err? && Apply(s, p, Establish(who, b, agrees)) == p
  {
    EstablishedIff(s, p, who, b, agrees);
  }

  /** What would lift a block: a decision on the device, another key in its row, or a reset. */
  ghost predicate BlockLifted(s: Suite, ops: seq<Op>, k: nat, who: Address, key: Bytes)
    requires k < |ops|
  {
    || (ops[k].SetTrust? && ops[k].who == who)
    || ops[k].ResetPeers?
    || KeyOf(After(s, ops, k + 1), who) != Some(key)
  }

  /** Main result: once the user has marked a device's key as not to be trusted, no outbound session
      toward this key is built until that is lifted, whatever else happens in between. */
  lemma {:induction false} BlockLasts(s: Suite, ops: seq<Op>, i: nat, j: nat, who: Address, key: Bytes)
    requires i < j <= |ops| && ops[i] == SetTrust(who, UNTRUSTED) && KeyOf(After(s, ops, i), who) == Some(key)
    requires forall k :: i < k < j ==> !BlockLifted(s, ops, k, who, key)
    ensures Blocked(After(s, ops, j), who, key)
    ensures forall b: Bundle, agrees :: DecodeCurve(EcDjb(b.ik)) == Some(key) ==>
              Established(s, After(s, ops, j), who, b, agrees).Err?
    decreases j
  {
    hide Apply, Established, DecodeCurve, Run;
    NextState(s, ops, j - 1);
    if i < j - 1 {
      BlockLasts(s, ops, i, j - 1, who, key);
      assert !BlockLifted(s, ops, j - 1, who, key);
      BlockStays(s, After(s, ops, j - 1), ops[j - 1], who, key);
    } else {
      BlockStarts(s, After(s, ops, i), who, key);
    }
    BlockedMeansRefused(s, After(s, ops, j), who, key);
  }

  lemma BlockStarts(s: Suite, p: Peers, who: Address, key: Bytes)
    requires KeyOf(p, who) == Some(key)
    ensures Blocked(Apply(s, p, SetTrust(who, UNTRUSTED)), who, key)
  {
    RowStep(s, p, SetTrust(who, UNTRUSTED), who);
  }

  lemma BlockStays(s: Suite, p: Peers, op: Op, who: Address, key: Bytes)
    requires Blocked(p, who, key) && !(op.SetTrust? && op.who == who) && KeyOf(Apply(s, p, op), who) == Some(key)
    ensures Blocked(Apply(s, p, op), who, key)
  {
    hide Apply;
    RowStep(s, p, op, who);
  }

  lemma BlockedMeansRefused(s: Suite, p: Peers, who: Address, key: Bytes)
    requires Blocked(p, who, key)
    ensures forall b: Bundle, agrees :: DecodeCurve(EcDjb(b.ik)) == Some(key) ==> Established(s, p, who, b, agrees).Err?
  {
    hide Established;
    forall b: Bundle, agrees | DecodeCurve(EcDjb(b.ik)) == Some(key) ensures Established(s, p, who, b, agrees).Err? {
      BlockedKeyIsRefused(s, p, who, b, agrees);
    }
  }

  // ---- a changed pin and the verdict it rests on ------------------------

  /** An outbound session that replaces a pin looks at the verdict on the device row, not at whether
      that row holds the key being pinned. The verdict survives the step exactly when it did. */
  lemma RepinKeepsTheVerdictIff(s: Suite, p: Peers, op: Op, ik: CurveKey)
    requires op.Establish? && ReadBundle(s, op.bundle) == Ok(ik)
    requires PinFor(op.who.jid, ik) in p.pins
    requires Apply(s, p, op).pins[PinFor(op.who.jid, ik)] != p.pins[PinFor(op.who.jid, ik)]
    ensures IsVerified(p, op.who)
    ensures IsVerified(Apply(s, p, op), op.who) <==> KeyOf(p, op.who) == Some(ik)
    ensures KeyOf(Apply(s, p, op), op.who) == Some(ik)
  {
  }

  /** An outbound session with this bundle goes through, whatever it finds stored but a block or a pin. */
  predicate Acceptable(s: Suite, who: Address, ik: CurveKey, b: Bundle) {
    && ReadBundle(s, b) == Ok(ik)
    && var spk := ReadHandshakeKeys(s, who, b);
       && spk.Ok? && s.curveVerify(ik, spk.value, b.spkSig) && s.curveVerify(ik, ChosenKem(b).key, ChosenKem(b).sig)
       && TranscriptVerifies(s, ik, spk.value, b)
  }

  lemma AcceptableIsEstablished(s: Suite, p: Peers, who: Address, ik: CurveKey, b: Bundle)
    requires Acceptable(s, who, ik, b) && IsTrustedIdentity(p, who, ik) && !PinRefused(p, who, ik, b)
    ensures Apply(s, p, Establish(who, b, true)) == Pinned(Saved(p, who, ik), who, ik, b.pqIk)
  {
    assert Processes(s, p, who, ik, ReadHandshakeKeys(s, who, b).value, b, true);
  }

  function FourSteps(one: Address, two: Address, other: Bytes, first: Bundle, second: Bundle): seq<Op> {
    [SaveIdentity(one, other), SetTrust(one, VERIFIED), Establish(two, first, true), Establish(one, second, true)]
  }

  lemma AfterFourSteps(s: Suite, ops: seq<Op>)
    requires |ops| == 4
    ensures After(s, ops, 3) == Apply(s, Apply(s, Apply(s, NOBODY, ops[0]), ops[1]), ops[2])
    ensures Run(s, ops) == Apply(s, After(s, ops, 3), ops[3])
  {
    hide Apply;
    NextState(s, ops, 0);
    NextState(s, ops, 1);
    NextState(s, ops, 2);
    NextState(s, ops, 3);
    assert ops[..4] == ops && ops[..0] == [];
  }

  /** So the pin of a key nobody verified can be replaced. One device of a JID is verified with another
      key, the pin comes from a session toward a second device, and then a bundle fetched for the first
      one carries the second one's key. The documentation promises less change than this; the model
      follows the code. */
  lemma PinOfAnUnverifiedKeyMayChange(s: Suite, jid: string, ik: CurveKey, other: CurveKey, first: Bundle, second: Bundle)
    requires ik != other && first.pqIk != second.pqIk
    requires Acceptable(s, Address(jid, 2), ik, first) && Acceptable(s, Address(jid, 1), ik, second)
    ensures var ops := FourSteps(Address(jid, 1), Address(jid, 2), other, first, second);
            var id := PinFor(jid, ik);
            var p, q := After(s, ops, 3), Run(s, ops);
            && (forall who :: who in p.identities && p.identities[who].key == ik ==> !IsVerified(p, who))
            && id in p.pins && p.pins[id] == first.pqIk
            && id in q.pins && q.pins[id] == second.pqIk
  {
    hide Acceptable, IsVerified;
    var one, two := Address(jid, 1), Address(jid, 2);
    var ops := FourSteps(one, two, other, first, second);
    AfterFourSteps(s, ops);
    var v := Peers(map[one := IdentityRow(other, VERIFIED, true)], map[], true);
    assert Apply(s, Apply(s, NOBODY, ops[0]), ops[1]).identities == v.identities;
    AcceptableIsEstablished(s, v, two, ik, first);
    var p := After(s, ops, 3);
    assert p == Pinned(Saved(v, two, ik), two, ik, first.pqIk);
    assert p.identities[one] == IdentityRow(other, VERIFIED, true) && p.identities[two] == IdentityRow(ik, TRUSTED, true);
    ThreeStepsVerifyOne(p, one, two, ik, other);
    AcceptableIsEstablished(s, p, one, ik, second);
  }

  lemma ThreeStepsVerifyOne(p: Peers, one: Address, two: Address, ik: CurveKey, other: CurveKey)
    requires ik != other && one != two
    requires p.identities == map[one := IdentityRow(other, VERIFIED, true), two := IdentityRow(ik, TRUSTED, true)]
    ensures IsVerified(p, one)
    ensures forall who :: who in p.identities && p.identities[who].key == ik ==> !IsVerified(p, who)
  {
  }
}
