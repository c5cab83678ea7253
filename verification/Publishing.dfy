/** Building the bundle we publish from the keys we hold, and the whole maintenance pass. */
module Publishing {
  import opened Wrappers
  import opened OmemoTypes
  import opened IdSets
  import opened KemHistory
  import opened KemSafety
  import opened OwnKeys
  import opened Maintenance

  /** `sig` is the device's post-quantum signature over everything the bundle `b` binds. */
  ghost predicate SignedBy(d: Device, spk: CurveKey, b: Bundle) {
    exists n: nat :: b.pqSig == d.pqSign(SignedTranscript(d.suite, d.identityKey, d.pqKey, spk, b), n)
  }

  /** The bundle is exactly the keys in the tables: the signed pre-key `spkId`, the current
      last-resort key, and every EC and every unused one-time KEM key in ascending id order. */
  ghost predicate Advertises(b: Bundle, d: Device, kem: map<u32, KemRow>,
      ec: map<u32, Option<CurveKey>>, spk: map<u32, Option<SpkRecord>>, spkId: u32) {
    && AdvertisesSigned(b, d, kem, spk, spkId)
    && ListsEc(b.prekeys, ec, Ascending(ec.Keys))
    && ListsKem(b.kemPrekeys, kem, Ascending(Available(kem)))
  }

  ghost predicate AdvertisesSigned(b: Bundle, d: Device, kem: map<u32, KemRow>,
      spk: map<u32, Option<SpkRecord>>, spkId: u32) {
    && b.ik == EcRaw(d.identityKey) && b.pqIk == d.pqKey
    && spkId in spk && spk[spkId].Some?
    && (var own := spk[spkId].value;
        && b.spkId == own.id && b.spk == EcRaw(own.publicKey) && b.spkSig == own.signature
        && SignedBy(d, own.publicKey, b))
    && CurrentLastResort(kem) == Some(b.kemSpkId)
    && kem[b.kemSpkId].record.Some?
    && (var own := kem[b.kemSpkId].record.value;
        b.kemSpk == own.publicKey && b.kemSpkSig == own.signature)
  }

  ghost predicate ListsEc(listed: seq<(u32, Bytes)>, ec: map<u32, Option<CurveKey>>, ids: seq<nat>) {
    && |listed| == |ids|
    && forall k :: 0 <= k < |ids| ==>
         && ids[k] in ec && ec[ids[k]].Some?
         && listed[k] == (ids[k], EcRaw(ec[ids[k]].value))
  }

  ghost predicate ListsKem(listed: seq<KemPreKey>, kem: map<u32, KemRow>, ids: seq<nat>) {
    && |listed| == |ids|
    && forall k :: 0 <= k < |ids| ==>
         && ids[k] in kem && kem[ids[k]].record.Some?
         && listed[k] == KemPreKey(ids[k], kem[ids[k]].record.value.publicKey, kem[ids[k]].record.value.signature)
  }

  method SignBundlePq(s: Store, spkId: u32, spk: CurveKey, kemSpkId: u32, kemSpk: Bytes, oneTime: seq<(u32, Bytes)>)
    returns (pqIk: Bytes, pqSig: Bytes)
    modifies s`draws
    ensures pqIk == s.device.pqKey
    ensures pqSig == s.device.pqSign(
              s.device.suite.transcript(s.device.identityKey, s.device.pqKey, spkId, spk,
                                        s.device.suite.kemBinding(kemSpkId, kemSpk, oneTime)),
              old(s.draws))
  {
    var d := s.device;
    var binding := d.suite.kemBinding(kemSpkId, kemSpk, oneTime);
    var message := d.suite.transcript(d.identityKey, d.pqKey, spkId, spk, binding);
    pqIk, pqSig := d.pqKey, d.pqSign(message, s.draws);
    s.draws := s.draws + 1;
  }

  method ListEcPreKeys(s: Store) returns (r: Result<seq<(u32, Bytes)>, OmemoError>)
    ensures r.Ok? <==> forall id :: id in s.ec ==> s.ec[id].Some?
    ensures r.Ok? ==> ListsEc(r.value, s.ec, Ascending(s.ec.Keys))
  {
    var ids := SelectInOrder(s.ec.Keys);
    var listed: seq<(u32, Bytes)> := [];
    for i := 0 to |ids|
      invariant ListsEc(listed, s.ec, ids[..i])
    {
      assert ids[i] in s.ec.Keys;
      match s.ec[ids[i]] {
        case None => return Err(Signal);
        case Some(key) => listed := listed + [(ids[i], EcRaw(key))];
      }
      assert ids[..i + 1] == ids[..i] + [ids[i]];
    }
    assert ids[..|ids|] == ids;
    assert forall id :: id in s.ec ==> id in ids;
    r := Ok(listed);
  }

  method ListKemPreKeys(s: Store) returns (r: Result<seq<KemPreKey>, OmemoError>)
    ensures r.Ok? <==> forall id :: id in Available(s.kem) ==> s.kem[id].record.Some?
    ensures r.Ok? ==> ListsKem(r.value, s.kem, Ascending(Available(s.kem)))
  {
    var ids := SelectInOrder(Available(s.kem));
    var listed: seq<KemPreKey> := [];
    for i := 0 to |ids|
      invariant ListsKem(listed, s.kem, ids[..i])
    {
      assert ids[i] in Available(s.kem);
      match s.kem[ids[i]].record {
        case None => return Err(Signal);
        case Some(own) => listed := listed + [KemPreKey(ids[i], own.publicKey, own.signature)];
      }
      assert ids[..i + 1] == ids[..i] + [ids[i]];
    }
    assert ids[..|ids|] == ids;
    assert forall id :: id in Available(s.kem) ==> id in ids;
    r := Ok(listed);
  }

  predicate CanRebuild(kem: map<u32, KemRow>, ec: map<u32, Option<CurveKey>>,
      spk: map<u32, Option<SpkRecord>>, spkId: u32) {
    && spkId in spk && spk[spkId].Some?
    && CurrentLastResort(kem).Some? && kem[CurrentLastResort(kem).value].record.Some?
    && (forall id :: id in ec ==> ec[id].Some?)
    && (forall id :: id in Available(kem) ==> kem[id].record.Some?)
  }

  method RebuildBundle(s: Store, spkId: u32) returns (r: Result<Bundle, OmemoError>)
    modifies s`draws
    ensures r.Ok? <==> CanRebuild(s.kem, s.ec, s.spk, spkId)
    ensures r.Ok? ==> Advertises(r.value, s.device, s.kem, s.ec, s.spk, spkId)
  {
    if spkId !in s.spk || s.spk[spkId].None? {
      return Err(Signal);
    }
    var own := s.spk[spkId].value;
    var kemId := CurrentLastResort(s.kem);
    if kemId.None? || s.kem[kemId.value].record.None? {
      return Err(Signal);
    }
    var last := s.kem[kemId.value].record.value;
    var prekeys := ListEcPreKeys(s);
    if prekeys.Err? {
      return Err(prekeys.error);
    }
    var kemPrekeys := ListKemPreKeys(s);
    if kemPrekeys.Err? {
      return Err(kemPrekeys.error);
    }
    ghost var draw := s.draws;
    var pqIk, pqSig := SignBundlePq(s, own.id, own.publicKey, kemId.value, last.publicKey, OneTimeKeys(kemPrekeys.value));
    var b := Bundle(own.id, EcRaw(own.publicKey), own.signature, EcRaw(s.device.identityKey), prekeys.value,
                    kemId.value, last.publicKey, last.signature, kemPrekeys.value, pqIk, pqSig);
    assert b.pqSig == s.device.pqSign(
        SignedTranscript(s.device.suite, s.device.identityKey, s.device.pqKey, own.publicKey, b), draw);
    r := Ok(b);
  }

  // ---- the very first bundle -------------------------------------------

  /** `n` rows from `first` on, one draw each. */
  ghost predicate EcDrawn(d: Device, ec: map<u32, Option<CurveKey>>, first: nat, n: nat, draw: nat) {
    forall id :: first <= id < first + n ==> id in ec && ec[id] == Some(d.curveKey(draw + (id - first)))
  }

  method GenerateEcPreKeys(s: Store, first: u32, count: u32) returns (listed: seq<(u32, Bytes)>)
    requires s.Valid() && first + count <= LAST_ID + 1
    modifies s`ec, s`draws
    ensures s.Valid()
    ensures ListsEc(listed, s.ec, Range(first, count))
    ensures forall id :: id in s.ec <==> id in old(s.ec) || first <= id < first + count
    ensures forall id :: id in old(s.ec) && !(first <= id < first + count) ==> s.ec[id] == old(s.ec)[id]
    ensures EcDrawn(s.device, s.ec, first, count, old(s.draws)) && s.draws == old(s.draws) + count
  {
    hide Run;
    listed := [];
    ghost var ids := Range(first, count);
    ghost var draw := s.draws;
    for i := 0 to count
      invariant s.Valid()
      invariant ListsEc(listed, s.ec, ids[..i])
      invariant forall id :: id in s.ec <==> id in old(s.ec) || first <= id < first + i
      invariant forall id :: id in old(s.ec) && !(first <= id < first + i) ==> s.ec[id] == old(s.ec)[id]
      invariant EcDrawn(s.device, s.ec, first, i, draw) && s.draws == draw + i
    {
      var key := DrawCurveKey(s);
      s.ec := s.ec[first + i := Some(key)];
      listed := listed + [(first + i, EcRaw(key))];
      assert ids[..i + 1] == ids[..i] + [first + i];
    }
    assert ids[..count] == ids;
  }

  /** Stores new key material under `id`, over whatever row was there. */
  method OverwriteKemKey(s: Store, id: u32, lastResort: bool, now: nat) returns (record: KemRecord)
    requires s.Valid()
    modifies s`kem, s`draws, s`generation, s`nextGeneration, s`accepted, s`trace
    ensures s.Valid() && s.accepted == old(s.accepted)
    ensures IsMlKem1024(record.publicKey) && record.timestamp == now
    ensures KemMadeAt(s.device, record, old(s.draws)) && s.draws == old(s.draws) + 2
    ensures s.kem == StoreRow(old(s.kem), id, Some(record), lastResort)
  {
    record := GenerateKemRecord(s, now);
    s.StoreKyberPreKey(id, Some(record), lastResort);
  }

  /** The `n` rows from `first` on hold new one-time keys; a row that was there kept its `used` flag,
      and every other row is as it was. */
  ghost predicate Overwrote(before: map<u32, KemRow>, after: map<u32, KemRow>, first: nat, n: nat) {
    && (forall id :: id in after <==> id in before || first <= id < first + n)
    && (forall id :: id in after ==>
          if first <= id < first + n then
            !after[id].lastResort && after[id].used == (id in before && before[id].used)
          else after[id] == before[id])
  }

  lemma OneMoreOverwritten(before: map<u32, KemRow>, mid: map<u32, KemRow>, first: nat, n: nat, record: KemRecord)
    requires Overwrote(before, mid, first, n) && first + n <= LAST_ID
    ensures Overwrote(before, StoreRow(mid, first + n, Some(record), false), first, n + 1)
  {
  }

  lemma OneMoreListed(listed: seq<KemPreKey>, mid: map<u32, KemRow>, first: nat, n: nat, record: KemRecord)
    requires ListsKem(listed, mid, Range(first, n)) && first + n <= LAST_ID
    ensures ListsKem(listed + [KemPreKey(first + n, record.publicKey, record.signature)],
                     StoreRow(mid, first + n, Some(record), false), Range(first, n + 1))
  {
    var shorter, longer := Range(first, n), Range(first, n + 1);
    assert longer == shorter + [first + n];
    assert forall k :: 0 <= k < n ==> shorter[k] != first + n;
  }

  /** Each listed key is from draws of its own and signed as a whole. */
  ghost predicate ListedMadeAt(d: Device, listed: seq<KemPreKey>, draw: nat) {
    forall k :: 0 <= k < |listed| ==> KemMadeAt(d, KemRecord(listed[k].key, listed[k].sig, 0), draw + 2 * k)
  }

  lemma OneMoreMadeAt(d: Device, listed: seq<KemPreKey>, draw: nat, record: KemRecord)
    requires ListedMadeAt(d, listed, draw) && KemMadeAt(d, record, draw + 2 * |listed|)
    ensures forall id :: ListedMadeAt(d, listed + [KemPreKey(id, record.publicKey, record.signature)], draw)
  {
  }

  method GenerateKemPreKeys(s: Store, first: nat, count: u32, now: nat) returns (listed: seq<KemPreKey>)
    requires s.Valid() && first + count <= LAST_ID + 1
    modifies s`kem, s`draws, s`generation, s`nextGeneration, s`accepted, s`trace
    ensures s.Valid() && s.accepted == old(s.accepted)
    ensures ListsKem(listed, s.kem, Range(first, count))
    ensures forall k :: 0 <= k < count ==> IsMlKem1024(listed[k].key)
    ensures Overwrote(old(s.kem), s.kem, first, count)
    ensures ListedMadeAt(s.device, listed, old(s.draws)) && s.draws == old(s.draws) + 2 * count
  {
    hide Run, KemMadeAt;
    listed := [];
    ghost var draw := s.draws;
    for i := 0 to count
      invariant s.Valid() && s.accepted == old(s.accepted)
      invariant ListsKem(listed, s.kem, Range(first, i))
      invariant forall k :: 0 <= k < i ==> IsMlKem1024(listed[k].key)
      invariant Overwrote(old(s.kem), s.kem, first, i)
      invariant ListedMadeAt(s.device, listed, draw) && s.draws == draw + 2 * i
    {
      ghost var mid := s.kem;
      var record := OverwriteKemKey(s, first + i, false, now);
      OneMoreOverwritten(old(s.kem), mid, first, i, record);
      OneMoreListed(listed, mid, first, i, record);
      OneMoreMadeAt(s.device, listed, draw, record);
      listed := listed + [KemPreKey(first + i, record.publicKey, record.signature)];
    }
  }

  /** The last-resort key under `kemId`, and `count` one-time keys under the ids after it. */
  method GenerateKemTable(s: Store, kemId: u32, count: u32, now: nat)
    returns (last: KemRecord, listed: seq<KemPreKey>)
    requires s.Valid() && kemId + count <= LAST_ID
    modifies s`kem, s`draws, s`generation, s`nextGeneration, s`accepted, s`trace
    ensures s.Valid() && s.accepted == old(s.accepted)
    ensures ListsKem(listed, s.kem, Range(kemId + 1, count))
    ensures IsMlKem1024(last.publicKey) && forall k :: 0 <= k < count ==> IsMlKem1024(listed[k].key)
    ensures kemId in s.kem && s.kem[kemId].record == Some(last) && last.timestamp == now
    ensures forall id :: id in s.kem <==> id in old(s.kem) || kemId <= id < kemId + 1 + count
    ensures forall id :: kemId <= id < kemId + 1 + count ==>
              s.kem[id].lastResort == (id == kemId) && s.kem[id].used == (id in old(s.kem) && old(s.kem)[id].used)
    ensures KemMadeAt(s.device, last, old(s.draws)) && ListedMadeAt(s.device, listed, old(s.draws) + 2)
    ensures forall id :: id in old(s.kem) && !(kemId <= id < kemId + 1 + count) ==> s.kem[id] == old(s.kem)[id]
  {
    hide Run, KemMadeAt, ListsKem, ListedMadeAt, Range, IsMlKem1024;
    last := OverwriteKemKey(s, kemId, true, now);
    listed := GenerateKemPreKeys(s, kemId + 1, count, now);
  }

  /** The first bundle. Rows under other ids stay; a row under one of these ids is overwritten. */
  method GenerateAndStorePreKeys(s: Store, now: nat, spkId: u32, kemId: u32, first: u32, count: u32)
    returns (b: Bundle)
    requires s.Valid() && first + count <= LAST_ID + 1 && kemId + count <= LAST_ID
    modifies s
    ensures s.Valid() && s.accepted == old(s.accepted) && s.replay == old(s.replay)
    ensures ListsEc(b.prekeys, s.ec, Range(first, count))
    ensures ListsKem(b.kemPrekeys, s.kem, Range(kemId + 1, count))
    ensures IsMlKem1024(b.kemSpk) && forall k :: 0 <= k < count ==> IsMlKem1024(b.kemPrekeys[k].key)
    ensures kemId in s.kem && s.kem[kemId].record.Some? && s.kem[kemId].record.value.timestamp == now
    ensures b.kemSpkId == kemId && b.kemSpk == s.kem[kemId].record.value.publicKey
         && b.kemSpkSig == s.kem[kemId].record.value.signature
    ensures spkId in s.spk && s.spk[spkId].Some? && s.spk == old(s.spk)[spkId := s.spk[spkId]]
    ensures var own := s.spk[spkId].value;
            && own.id == spkId == b.spkId && own.timestamp == now
            && b.spk == EcRaw(own.publicKey) && b.spkSig == own.signature
            && SignedBy(s.device, own.publicKey, b)
    ensures b.ik == EcRaw(s.device.identityKey) && b.pqIk == s.device.pqKey
    ensures forall id :: id in s.ec <==> id in old(s.ec) || first <= id < first + count
    ensures forall id :: id in s.kem <==> id in old(s.kem) || kemId <= id < kemId + 1 + count
    ensures forall id :: kemId <= id < kemId + 1 + count ==>
              s.kem[id].lastResort == (id == kemId) && s.kem[id].used == (id in old(s.kem) && old(s.kem)[id].used)
    ensures EcDrawn(s.device, s.ec, first, count, old(s.draws))
    ensures SpkMadeAt(s.device, s.spk[spkId].value, old(s.draws) + count)
    ensures KemMadeAt(s.device, s.kem[kemId].record.value, old(s.draws) + count + 2)
    ensures ListedMadeAt(s.device, b.kemPrekeys, old(s.draws) + count + 4)
    ensures forall id :: id in old(s.ec) && !(first <= id < first + count) ==> s.ec[id] == old(s.ec)[id]
    ensures forall id :: id in old(s.kem) && !(kemId <= id < kemId + 1 + count) ==> s.kem[id] == old(s.kem)[id]
  {
    hide Run, KemMadeAt, ListsEc, ListsKem, ListedMadeAt, EcDrawn, EcRaw, Range;
    var prekeys := GenerateEcPreKeys(s, first, count);
    var key := DrawCurveKey(s);
    var sig := DrawSignature(s, key);
    s.spk := s.spk[spkId := Some(SpkRecord(spkId, key, sig, now))];
    var last, kemPrekeys := GenerateKemTable(s, kemId, count, now);
    ghost var draw := s.draws;
    var pqIk, pqSig := SignBundlePq(s, spkId, key, kemId, last.publicKey, OneTimeKeys(kemPrekeys));
    b := Bundle(spkId, EcRaw(key), sig, EcRaw(s.device.identityKey), prekeys,
                kemId, last.publicKey, last.signature, kemPrekeys, pqIk, pqSig);
    assert b.pqSig == s.device.pqSign(
        SignedTranscript(s.device.suite, s.device.identityKey, s.device.pqKey, key, b), draw);
  }

  lemma FirstTable(kem: map<u32, KemRow>, kemId: u32, count: u32)
    requires kemId + count <= LAST_ID
    requires forall id :: id in kem <==> kemId <= id < kemId + 1 + count
    requires forall id :: id in kem ==> kem[id].lastResort == (id == kemId) && !kem[id].used
    ensures CurrentLastResort(kem) == Some(kemId)
    ensures forall id :: id in Available(kem) <==> kemId + 1 <= id < kemId + 1 + count
  {
    assert kemId in kem;
    assert LastResorts(kem) == {kemId};
  }

  /** From empty tables, the first bundle advertises exactly what was stored. */
  lemma FirstBundleIsComplete(b: Bundle, kem: map<u32, KemRow>, ec: map<u32, Option<CurveKey>>,
      kemId: u32, first: u32, count: u32)
    requires first + count <= LAST_ID + 1 && kemId + count <= LAST_ID
    requires ListsEc(b.prekeys, ec, Range(first, count)) && ListsKem(b.kemPrekeys, kem, Range(kemId + 1, count))
    requires forall id :: id in ec <==> first <= id < first + count
    requires forall id :: id in kem <==> kemId <= id < kemId + 1 + count
    requires forall id :: id in kem ==> kem[id].lastResort == (id == kemId) && !kem[id].used
    ensures CurrentLastResort(kem) == Some(kemId)
    ensures ListsEc(b.prekeys, ec, Ascending(ec.Keys)) && ListsKem(b.kemPrekeys, kem, Ascending(Available(kem)))
  {
    FirstTable(kem, kemId, count);
    assert Range(first, count) == Ascending(ec.Keys) by { RangeInOrder(ec.Keys, first, count); }
    assert Range(kemId + 1, count) == Ascending(Available(kem)) by { RangeInOrder(Available(kem), kemId + 1, count); }
  }

  // ---- the whole pass ---------------------------------------------------

  /** The KEM table part of a bundle every peer accepts: at least `low` one-time keys, all of it
      ML-KEM-1024, and a current last-resort key that is not older than 30 days. */
  ghost predicate Stocked(kem: map<u32, KemRow>, now: nat, low: nat) {
    && (forall id :: id in kem ==> IsFips203(kem[id]))
    && CurrentLastResort(kem).Some?
    && !TooOld(kem[CurrentLastResort(kem).value].record.value.timestamp, now, KEM_SPK_ROTATION_MS)
    && |Available(kem)| >= low
  }

  lemma NewRowsAreAvailable(before: map<u32, KemRow>, after: map<u32, KemRow>, now: nat)
    requires forall id :: id in before ==> id in after && after[id] == before[id]
    requires forall id :: id in after && id !in before ==> NewKemRow(after[id], false, now)
    ensures Available(after) == Available(before) + Added(before, after)
    ensures LastResorts(after) == LastResorts(before)
  {
  }

  lemma PoolGrows(before: map<u32, KemRow>, after: map<u32, KemRow>, target: nat, low: nat, now: nat)
    requires Grew(before, after, MaxOf(before.Keys), Shortfall(|Available(before)|, target, low))
    requires MaxOf(before.Keys) + Shortfall(|Available(before)|, target, low) <= LAST_ID
    requires forall id :: id in after && id !in before ==> NewKemRow(after[id], false, now)
    requires low <= target
    ensures |Available(after)| >= low && LastResorts(after) == LastResorts(before)
  {
    AddedCount(before, after, MaxOf(before.Keys), Shortfall(|Available(before)|, target, low));
    NewRowsAreAvailable(before, after, now);
    assert Available(before) !! Added(before, after);
  }

  lemma EcPoolGrows(before: map<u32, Option<CurveKey>>, after: map<u32, Option<CurveKey>>, target: nat, low: nat)
    requires Grew(before, after, MaxOf(before.Keys), Shortfall(|before|, target, low))
    requires MaxOf(before.Keys) + Shortfall(|before|, target, low) <= LAST_ID
    requires low <= target
    ensures |after| >= low
  {
    AddedCount(before, after, MaxOf(before.Keys), Shortfall(|before|, target, low));
    assert after.Keys == before.Keys + Added(before, after);
    assert before.Keys !! Added(before, after);
  }

  /** Pruning spares the current last-resort key, every unused one-time key, and every key stamped
      within 90 days; everything else that is readable goes. */
  lemma PruningSpares(kem: map<u32, KemRow>, now: nat)
    ensures Available(Pruned(kem, now)) == Available(kem)
    ensures CurrentLastResort(Pruned(kem, now)) == CurrentLastResort(kem)
    ensures forall id :: id in kem && id !in Pruned(kem, now) ==>
              kem[id].record.Some? && SaturatingSub(now, kem[id].record.value.timestamp) > KEM_PREKEY_MAX_AGE_MS
    ensures forall id :: id in Pruned(kem, now) && kem[id].record.Some?
                    && SaturatingSub(now, kem[id].record.value.timestamp) > KEM_PREKEY_MAX_AGE_MS
              ==> id in Available(kem) || CurrentLastResort(kem) == Some(id)
  {
    if LastResorts(kem) != {} {
      var current := MaxOf(LastResorts(kem));
      assert current in LastResorts(Pruned(kem, now));
      assert LastResorts(Pruned(kem, now)) <= LastResorts(kem);
    } else {
      assert LastResorts(Pruned(kem, now)) <= LastResorts(kem);
    }
  }

  /** What the pass needs to find: a last-resort key that survives the purge, a readable newest
      signed pre-key, and readable EC rows. */
  ghost predicate CanMaintain(kem: map<u32, KemRow>, ec: map<u32, Option<CurveKey>>, spk: map<u32, Option<SpkRecord>>) {
    && LastResorts(Purged(kem)) != {}
    && spk != map[] && spk[MaxOf(spk.Keys)].Some?
    && forall id :: id in ec ==> ec[id].Some?
  }

  lemma GrownPoolIsFips203(kem: map<u32, KemRow>, grown: map<u32, KemRow>, now: nat)
    requires forall id :: id in kem ==> IsFips203(kem[id]) && id in grown && grown[id] == kem[id]
    requires forall id :: id in grown && id !in kem ==> NewKemRow(grown[id], false, now)
    ensures forall id :: id in grown ==> IsFips203(grown[id])
  {
    forall id | id in grown ensures IsFips203(grown[id]) {
      if id !in kem { assert NewKemRow(grown[id], false, now); }
    }
  }

  lemma RotatedPoolIsFips203(grown: map<u32, KemRow>, rotated: map<u32, KemRow>, now: nat)
    requires forall id :: id in grown ==> IsFips203(grown[id])
    requires LastResortRotated(grown, rotated, now)
    ensures forall id :: id in rotated ==> IsFips203(rotated[id])
  {
  }

  /** The KEM part of the pass: `purged`, topped up to `grown`, and `rotated`. */
  lemma UpkeepStocks(purged: map<u32, KemRow>, grown: map<u32, KemRow>, rotated: map<u32, KemRow>,
      target: nat, low: nat, now: nat)
    requires forall id :: id in purged ==> IsFips203(purged[id])
    requires Grew(purged, grown, MaxOf(purged.Keys), Shortfall(|Available(purged)|, target, low))
    requires MaxOf(purged.Keys) + Shortfall(|Available(purged)|, target, low) <= LAST_ID
    requires forall id :: id in grown && id !in purged ==> NewKemRow(grown[id], false, now)
    requires LastResortRotated(grown, rotated, now)
    ensures forall id :: id in rotated ==> IsFips203(rotated[id])
    ensures LastResorts(purged) != {} && low <= target ==> Stocked(rotated, now, low)
    ensures CurrentLastResort(rotated).Some? <==> LastResorts(purged) != {}
  {
    GrownPoolIsFips203(purged, grown, now);
    RotatedPoolIsFips203(grown, rotated, now);
    NewRowsAreAvailable(purged, grown, now);
    if low <= target {
      PoolGrows(purged, grown, target, low, now);
      RotationKeepsThePool(grown, rotated, now);
    }
  }

  lemma RotationKeepsThePool(grown: map<u32, KemRow>, rotated: map<u32, KemRow>, now: nat)
    requires LastResortRotated(grown, rotated, now)
    ensures Available(rotated) == Available(grown)
  {
    if rotated != grown {
      var id := NextId(grown.Keys);
      assert NewKemRow(rotated[id], true, now);
    }
  }

  /** Every KEM id of a bundle that advertises the tables occurs once in it. */
  lemma AdvertisedKemIdsAreDistinct(b: Bundle, kem: map<u32, KemRow>)
    requires ListsKem(b.kemPrekeys, kem, Ascending(Available(kem)))
    requires CurrentLastResort(kem) == Some(b.kemSpkId)
    ensures forall i, j :: 0 <= i < j < |b.kemPrekeys| ==> b.kemPrekeys[i].id < b.kemPrekeys[j].id
    ensures forall i :: 0 <= i < |b.kemPrekeys| ==> b.kemPrekeys[i].id != b.kemSpkId
    ensures |b.kemPrekeys| == |Available(kem)|
    ensures forall id :: id in Available(kem) <==> exists i :: 0 <= i < |b.kemPrekeys| && b.kemPrekeys[i].id == id
  {
    var ids := Ascending(Available(kem));
    assert b.kemSpkId in LastResorts(kem);
    forall i | 0 <= i < |ids| ensures b.kemPrekeys[i].id == ids[i] && ids[i] in Available(kem) {}
    forall id | id in Available(kem) ensures exists i :: 0 <= i < |b.kemPrekeys| && b.kemPrekeys[i].id == id {
      var i :| 0 <= i < |ids| && ids[i] == id;
      assert b.kemPrekeys[i].id == id;
    }
  }

  method Replenish(s: Store, target: u32, low: u32, now: nat)
    requires s.Valid() && MaxOf(s.ec.Keys) + Shortfall(|s.ec|, target, low) <= LAST_ID
    requires MaxOf(s.kem.Keys) + Shortfall(|Available(s.kem)|, target, low) <= LAST_ID
    modifies s`ec, s`kem, s`draws, s`generation, s`nextGeneration, s`accepted, s`trace
    ensures s.Valid() && s.accepted == old(s.accepted)
    ensures Grew(old(s.ec), s.ec, MaxOf(old(s.ec.Keys)), Shortfall(|old(s.ec)|, target, low))
    ensures forall id :: id in s.ec && id !in old(s.ec) ==> s.ec[id].Some?
    ensures Grew(old(s.kem), s.kem, MaxOf(old(s.kem.Keys)), Shortfall(|Available(old(s.kem))|, target, low))
    ensures forall id :: id in s.kem && id !in old(s.kem) ==> NewKemRow(s.kem[id], false, now)
    ensures exists draw: nat :: KemRowsFrom(s.device, old(s.kem), s.kem, MaxOf(old(s.kem.Keys)), draw, now)
  {
    ReplenishEc(s, target, low);
    ReplenishKem(s, target, low, now);
  }

  /** Room for the ids this pass hands out in the two pools; past it the 32-bit counters overflow. */
  ghost predicate PoolIdsLeft(kem: map<u32, KemRow>, ec: map<u32, Option<CurveKey>>, now: nat, target: nat, low: nat) {
    var purged := Purged(kem);
    && MaxOf(purged.Keys) + Shortfall(|Available(purged)|, target, low)
         + (if LastResortDue(purged, now) then 1 else 0) <= LAST_ID
    && MaxOf(ec.Keys) + Shortfall(|ec|, target, low) <= LAST_ID
  }

  ghost predicate IdsLeft(kem: map<u32, KemRow>, ec: map<u32, Option<CurveKey>>, spk: map<u32, Option<SpkRecord>>,
      now: nat, target: nat, low: nat) {
    PoolIdsLeft(kem, ec, now, target, low) && (SignedPreKeyDue(spk, now) ==> MaxOf(spk.Keys) < LAST_ID)
  }

  lemma GrownPoolIsDueAlike(purged: map<u32, KemRow>, grown: map<u32, KemRow>, n: nat, now: nat)
    requires Grew(purged, grown, MaxOf(purged.Keys), n)
    requires forall id :: id in grown && id !in purged ==> NewKemRow(grown[id], false, now)
    ensures LastResortDue(grown, now) <==> LastResortDue(purged, now)
    ensures MaxOf(grown.Keys) <= MaxOf(purged.Keys) + n
  {
    NewRowsAreAvailable(purged, grown, now);
  }

  /** The bundle a pass over existing tables yields: everything we hold and nothing else, with both
      pools at or above `low` and both signed keys at most 30 days old. */
  ghost predicate UpToDate(b: Bundle, d: Device, kem: map<u32, KemRow>, ec: map<u32, Option<CurveKey>>,
      spk: map<u32, Option<SpkRecord>>, now: nat, low: nat) {
    && spk != map[] && Advertises(b, d, kem, ec, spk, MaxOf(spk.Keys))
    && Stocked(kem, now, low)
    && |b.prekeys| >= low && |b.kemPrekeys| >= low
    && !TooOld(spk[MaxOf(spk.Keys)].value.timestamp, now, SIGNED_PREKEY_ROTATION_MS)
  }

  // ---- keys that verify --------------------------------------------------

  /** Every row that can be published holds a key that verifies under our identity key, as every row has
      that was made here. */
  ghost predicate KemAllVerify(d: Device, kem: map<u32, KemRow>) {
    forall id :: id in kem && IsFips203(kem[id]) ==>
      KemVerifies(d, kem[id].record.value.publicKey, kem[id].record.value.signature)
  }

  ghost predicate SpkAllVerify(d: Device, spk: map<u32, Option<SpkRecord>>) {
    forall id :: id in spk && spk[id].Some? ==> SpkVerifies(d, spk[id].value.publicKey, spk[id].value.signature)
  }

  /** What a peer checks of the classical signatures of a bundle, whichever KEM key it takes. */
  ghost predicate KeysVerify(d: Device, b: Bundle) {
    && DecodeCurve(EcDjb(b.ik)) == Some(d.identityKey)
    && (var spk := DecodeCurve(EcDjb(b.spk)); spk.Some? && SpkVerifies(d, spk.value, b.spkSig))
    && KemVerifies(d, b.kemSpk, b.kemSpkSig)
    && (forall i :: 0 <= i < |b.kemPrekeys| ==> KemVerifies(d, b.kemPrekeys[i].key, b.kemPrekeys[i].sig))
  }

  lemma AddedRowsVerify(d: Device, before: map<u32, KemRow>, after: map<u32, KemRow>, from: nat, draw: nat, now: nat)
    requires Lawful(d) && KemAllVerify(d, before) && KemRowsFrom(d, before, after, from, draw, now)
    requires forall id :: id in before ==> id in after && after[id] == before[id]
    ensures KemAllVerify(d, after)
  {
    hide Lawful, KemVerifies, KemMadeAt, IsMlKem1024;
    forall id | id in after && IsFips203(after[id])
      ensures KemVerifies(d, after[id].record.value.publicKey, after[id].record.value.signature)
    {
      if id !in before {
        MadeHereVerifies(d, draw + 2 * (id - from - 1));
      }
    }
  }

  lemma RotatedRowVerifies(d: Device, before: map<u32, KemRow>, after: map<u32, KemRow>, draw: nat, now: nat)
    requires Lawful(d) && KemAllVerify(d, before) && LastResortRotated(before, after, now)
    requires forall id :: id in after && id !in before ==> KemMadeAt(d, after[id].record.value, draw)
    ensures KemAllVerify(d, after)
  {
    MadeHereVerifies(d, draw);
    hide Lawful, KemVerifies, KemMadeAt;
  }

  lemma FewerRowsVerify(d: Device, kem: map<u32, KemRow>, fewer: map<u32, KemRow>)
    requires KemAllVerify(d, kem) && forall id :: id in fewer ==> id in kem && fewer[id] == kem[id]
    ensures KemAllVerify(d, fewer)
  {
    hide IsFips203, KemVerifies;
  }

  /** A bundle of rows that verify is one that verifies. */
  lemma AdvertisedKeysVerify(b: Bundle, d: Device, kem: map<u32, KemRow>, ec: map<u32, Option<CurveKey>>,
      spk: map<u32, Option<SpkRecord>>, spkId: u32)
    requires Advertises(b, d, kem, ec, spk, spkId)
    requires KemAllVerify(d, kem) && SpkAllVerify(d, spk) && forall id :: id in kem ==> IsFips203(kem[id])
    ensures KeysVerify(d, b)
  {
    hide IsFips203, KemVerifies, SpkVerifies, SignedBy, DecodeCurve, EcDjb, EcRaw;
    RawThenDjb(d.identityKey);
    RawThenDjb(spk[spkId].value.publicKey);
    var ids := Ascending(Available(kem));
    forall i | 0 <= i < |b.kemPrekeys| ensures KemVerifies(d, b.kemPrekeys[i].key, b.kemPrekeys[i].sig) {
      assert ids[i] in kem;
    }
  }

  /** So is the first bundle. */
  lemma FirstKeysVerify(b: Bundle, d: Device, own: SpkRecord, last: KemRecord, spkDraw: nat, lastDraw: nat, draw: nat)
    requires Lawful(d) && SpkMadeAt(d, own, spkDraw) && KemMadeAt(d, last, lastDraw) && ListedMadeAt(d, b.kemPrekeys, draw)
    requires b.ik == EcRaw(d.identityKey) && b.spk == EcRaw(own.publicKey) && b.spkSig == own.signature
    requires b.kemSpk == last.publicKey && b.kemSpkSig == last.signature
    ensures KeysVerify(d, b)
  {
    hide Lawful, KemVerifies, SpkVerifies, DecodeCurve, EcDjb, EcRaw, KemMadeAt, SpkMadeAt;
    RawThenDjb(d.identityKey);
    RawThenDjb(own.publicKey);
    MadeHereVerifies(d, spkDraw);
    MadeHereVerifies(d, lastDraw);
    forall i | 0 <= i < |b.kemPrekeys| ensures KemVerifies(d, b.kemPrekeys[i].key, b.kemPrekeys[i].sig) {
      MadeHereVerifies(d, draw + 2 * i);
      assert KemMadeAt(d, KemRecord(b.kemPrekeys[i].key, b.kemPrekeys[i].sig, 0), draw + 2 * i);
    }
  }

  lemma FirstRowsVerify(d: Device, kem0: map<u32, KemRow>, kem: map<u32, KemRow>, kemId: u32, count: u32,
      listed: seq<KemPreKey>, lastDraw: nat, draw: nat)
    requires Lawful(d) && KemAllVerify(d, kem0) && ListsKem(listed, kem, Range(kemId + 1, count)) && ListedMadeAt(d, listed, draw)
    requires kemId in kem && kem[kemId].record.Some? && KemMadeAt(d, kem[kemId].record.value, lastDraw)
    requires forall id :: id in kem ==> id in kem0 || kemId <= id < kemId + 1 + count
    requires forall id :: id in kem0 && !(kemId <= id < kemId + 1 + count) ==> id in kem && kem[id] == kem0[id]
    ensures KemAllVerify(d, kem)
  {
    hide Lawful, KemVerifies, IsMlKem1024;
    forall id | id in kem && IsFips203(kem[id])
      ensures KemVerifies(d, kem[id].record.value.publicKey, kem[id].record.value.signature)
    {
      if id == kemId {
        MadeHereVerifies(d, lastDraw);
      } else if kemId < id < kemId + 1 + count {
        var k := id - kemId - 1;
        assert Range(kemId + 1, count)[k] == id;
        assert KemMadeAt(d, KemRecord(listed[k].key, listed[k].sig, 0), draw + 2 * k);
        MadeHereVerifies(d, draw + 2 * k);
      }
    }
  }

  // ---- what a pass keeps --------------------------------------------------

  predicate Within90Days(row: KemRow, now: nat) {
    row.record.Some? && row.record.value.timestamp + 90 * 24 * 60 * 60 * 1000 >= now
  }

  /** After the purge and before the pruning: every ML-KEM row is as it was, and the others are new. */
  ghost predicate PoolsRenewed(kem0: map<u32, KemRow>, kem: map<u32, KemRow>, now: nat) {
    && (forall id :: id in kem0 && IsFips203(kem0[id]) ==> id in kem && kem[id] == kem0[id])
    && (forall id :: id in kem && !(id in kem0 && IsFips203(kem0[id])) ==>
          !kem[id].used && kem[id].record.Some? && kem[id].record.value.timestamp == now)
  }

  /** What a whole pass does to the KEM rows and replay tuples: ML-KEM rows that are unused one-time keys,
      or at most 90 days old, are as they were; what else is left over is the current last-resort key
      or new; and exactly the tuples with a row stay. */
  ghost predicate KemKept(kem0: map<u32, KemRow>, replay0: set<Initiation>, kem: map<u32, KemRow>,
      replay: set<Initiation>, now: nat) {
    && (forall id :: id in kem0 && IsFips203(kem0[id])
                     && ((!kem0[id].used && !kem0[id].lastResort) || Within90Days(kem0[id], now)) ==>
          id in kem && kem[id] == kem0[id])
    && (forall id :: id in kem && (kem[id].used || kem[id].lastResort) ==>
          Within90Days(kem[id], now) || CurrentLastResort(kem) == Some(id))
    && (forall id :: id in kem ==>
          || (id in kem0 && IsFips203(kem0[id]) && kem[id] == kem0[id])
          || (!kem[id].used && kem[id].record.Some? && kem[id].record.value.timestamp == now))
    && (forall i :: i in replay <==> i in replay0 && i.kemId in kem)
  }

  lemma PrunedIsKept(kem0: map<u32, KemRow>, replay0: set<Initiation>, kem: map<u32, KemRow>, replay: set<Initiation>,
      now: nat)
    requires PoolsRenewed(kem0, kem, now) && forall id :: id in kem ==> IsFips203(kem[id])
    requires replay == set i | i in replay0 && i.kemId in Pruned(kem, now)
    ensures KemKept(kem0, replay0, Pruned(kem, now), replay, now)
  {
    PruningSpares(kem, now);
  }

  predicate AllReadable(ec: map<u32, Option<CurveKey>>) {
    forall id :: id in ec ==> ec[id].Some?
  }

  /** The first half of the pass: purge, top up, and rotate the last-resort key. */
  method RenewPools(s: Store, now: nat, target: u32, low: u32) returns (r: Result<(), OmemoError>)
    requires s.Valid() && PoolIdsLeft(s.kem, s.ec, now, target, low)
    modifies s`ec, s`kem, s`draws, s`generation, s`nextGeneration, s`accepted, s`trace
    ensures s.Valid() && s.accepted == old(s.accepted) && r.Ok?
    ensures forall id :: id in s.kem ==> IsFips203(s.kem[id])
    ensures CurrentLastResort(s.kem).Some? <==> LastResorts(Purged(old(s.kem))) != {}
    ensures CurrentLastResort(s.kem).Some? && low <= target ==> Stocked(s.kem, now, low)
    ensures AllReadable(s.ec) <==> AllReadable(old(s.ec))
    ensures low <= target ==> |s.ec| >= low
    ensures forall id :: id in old(s.ec) ==> id in s.ec && s.ec[id] == old(s.ec)[id]
    ensures PoolsRenewed(old(s.kem), s.kem, now)
    ensures Lawful(s.device) && KemAllVerify(s.device, old(s.kem)) ==> KemAllVerify(s.device, s.kem)
  {
    hide Run, Lawful, KemAllVerify, KemRowsFrom, PoolsRenewed, Stocked;
    ghost var ec0 := s.ec;
    PurgeNonMlKemPreKeys(s);
    ghost var purged := s.kem;
    Replenish(s, target, low, now);
    ghost var grown, draw2 := s.kem, s.draws;
    ghost var draw1: nat :| KemRowsFrom(s.device, purged, grown, MaxOf(purged.Keys), draw1, now);
    GrownPoolIsFips203(purged, grown, now);
    GrownPoolIsDueAlike(purged, grown, Shortfall(|Available(purged)|, target, low), now);
    r := RotateLastResortIfDue(s, now);
    UpkeepStocks(purged, grown, s.kem, target, low, now);
    RenewalKeeps(old(s.kem), grown, s.kem, MaxOf(purged.Keys), Shortfall(|Available(purged)|, target, low), now);
    RenewedRowsVerify(s.device, old(s.kem), grown, s.kem, draw1, draw2, now);
    hide Grew, LastResortRotated, NewKemRow, Purged, KemMadeAt;
    if low <= target {
      EcPoolGrows(ec0, s.ec, target, low);
    }
  }

  lemma RenewalKeeps(kem0: map<u32, KemRow>, grown: map<u32, KemRow>, rotated: map<u32, KemRow>, from: nat, n: nat, now: nat)
    requires Grew(Purged(kem0), grown, from, n) && LastResortRotated(grown, rotated, now)
    requires forall id :: id in grown && id !in Purged(kem0) ==> NewKemRow(grown[id], false, now)
    ensures PoolsRenewed(kem0, rotated, now)
  {
    hide LastResortDue, CurrentLastResort, IsMlKem1024;
    assert forall id :: id in grown ==> id in rotated && rotated[id] == grown[id];
    assert forall id :: id in rotated && id !in grown ==> NewKemRow(rotated[id], true, now);
  }

  lemma RenewedRowsVerify(d: Device, kem0: map<u32, KemRow>, grown: map<u32, KemRow>, rotated: map<u32, KemRow>,
      draw1: nat, draw2: nat, now: nat)
    requires forall id :: id in Purged(kem0) ==> id in grown && grown[id] == Purged(kem0)[id]
    requires KemRowsFrom(d, Purged(kem0), grown, MaxOf(Purged(kem0).Keys), draw1, now)
    requires LastResortRotated(grown, rotated, now)
    requires forall id :: id in rotated && id !in grown ==> KemMadeAt(d, rotated[id].record.value, draw2)
    ensures Lawful(d) && KemAllVerify(d, kem0) ==> KemAllVerify(d, rotated)
  {
    hide Lawful, KemAllVerify, KemRowsFrom, LastResortRotated, KemMadeAt;
    if Lawful(d) && KemAllVerify(d, kem0) {
      FewerRowsVerify(d, kem0, Purged(kem0));
      AddedRowsVerify(d, Purged(kem0), grown, MaxOf(Purged(kem0).Keys), draw1, now);
      RotatedRowVerifies(d, grown, rotated, draw2, now);
    }
  }

  lemma PruningKeepsStock(kem: map<u32, KemRow>, now: nat, low: nat)
    requires forall id :: id in kem ==> IsFips203(kem[id])
    ensures forall id :: id in Pruned(kem, now) ==> IsFips203(Pruned(kem, now)[id])
    ensures CurrentLastResort(Pruned(kem, now)) == CurrentLastResort(kem)
    ensures Stocked(kem, now, low) ==> Stocked(Pruned(kem, now), now, low)
  {
    PruningSpares(kem, now);
    if Stocked(kem, now, low) {
      var current := CurrentLastResort(kem).value;
      assert current in LastResorts(kem);
      assert !Stale(kem, current, now);
    }
  }

  lemma SuppliesEnough(b: Bundle, d: Device, kem: map<u32, KemRow>, ec: map<u32, Option<CurveKey>>,
      spk: map<u32, Option<SpkRecord>>, now: nat, low: nat)
    requires spk != map[] && Advertises(b, d, kem, ec, spk, MaxOf(spk.Keys))
    requires Stocked(kem, now, low) && |ec| >= low
    requires !TooOld(spk[MaxOf(spk.Keys)].value.timestamp, now, SIGNED_PREKEY_ROTATION_MS)
    ensures UpToDate(b, d, kem, ec, spk, now, low)
  {
    assert |ec| == |ec.Keys|;
  }

  lemma RotatedSpkVerifies(d: Device, before: map<u32, Option<SpkRecord>>, after: map<u32, Option<SpkRecord>>, draw: nat)
    requires forall id :: id in after && !(id in before && after[id] == before[id]) ==>
               after[id].Some? && SpkMadeAt(d, after[id].value, draw)
    ensures Lawful(d) && SpkAllVerify(d, before) ==> SpkAllVerify(d, after)
  {
    hide SpkVerifies, SpkMadeAt, Lawful;
    if Lawful(d) {
      MadeHereVerifies(d, draw);
    }
  }

  /** One maintenance pass over a store that has the first signed pre-key. It yields a bundle exactly
      when a FIPS 203 last-resort key is there, the newest signed pre-key is readable, and so is
      every EC row. No pass, whatever it finds, accepts or forgets a handshake. */
  method UpkeepBundle(s: Store, now: nat, spkId: u32, target: u32, low: u32) returns (r: Result<Bundle, OmemoError>)
    requires s.Valid() && spkId in s.spk && IdsLeft(s.kem, s.ec, s.spk, now, target, low)
    modifies s
    ensures s.Valid() && s.accepted == old(s.accepted)
    ensures r.Ok? <==> CanMaintain(old(s.kem), old(s.ec), old(s.spk))
    ensures r.Ok? && low <= target ==> UpToDate(r.value, s.device, s.kem, s.ec, s.spk, now, low)
    ensures r.Ok? ==> Advertises(r.value, s.device, s.kem, s.ec, s.spk, MaxOf(s.spk.Keys))
    ensures forall id :: id in s.kem ==> IsFips203(s.kem[id])
    ensures forall id :: id in old(s.ec) ==> id in s.ec && s.ec[id] == old(s.ec)[id]
    ensures forall id :: id in old(s.spk) ==> id in s.spk && s.spk[id] == old(s.spk)[id]
    ensures r.Ok? ==> KemKept(old(s.kem), old(s.replay), s.kem, s.replay, now)
    ensures Lawful(s.device) && KemAllVerify(s.device, old(s.kem)) && SpkAllVerify(s.device, old(s.spk)) ==>
              KemAllVerify(s.device, s.kem) && SpkAllVerify(s.device, s.spk) && (r.Ok? ==> KeysVerify(s.device, r.value))
  {
    hide UpToDate, Advertises, Stocked, PoolIdsLeft, Run, CurrentLastResort;
    hide Lawful, KemAllVerify, SpkAllVerify, KeysVerify, KemKept, PoolsRenewed, SpkMadeAt, TooOld, IsFips203;
    ghost var spk0 := s.spk;
    var renewed := RenewPools(s, now, target, low);
    assert renewed.Ok?; // after the purge every KEM row is readable
    ghost var draw := s.draws;
    var current := RotateSignedPreKeyIfDue(s, now, spkId);
    RotatedSpkVerifies(s.device, spk0, s.spk, draw);
    if current.Err? {
      return Err(current.error);
    }
    assert AllReadable(s.ec) <==> AllReadable(old(s.ec));
    ghost var kem1, replay0 := s.kem, s.replay;
    r := PruneAndRebuild(s, now, current.value, low);
    PrunedIsKept(old(s.kem), replay0, kem1, s.replay, now);
    if r.Ok? && low <= target {
      assert Stocked(s.kem, now, low);
      SuppliesEnough(r.value, s.device, s.kem, s.ec, s.spk, now, low);
    }
  }

  /** The second half: prune, and build the bundle from what is left. */
  method PruneAndRebuild(s: Store, now: nat, spkId: u32, low: u32) returns (r: Result<Bundle, OmemoError>)
    requires s.Valid() && forall id :: id in s.kem ==> IsFips203(s.kem[id])
    modifies s`kem, s`replay, s`draws, s`generation, s`nextGeneration, s`accepted, s`trace
    ensures s.Valid() && s.accepted == old(s.accepted)
    ensures s.kem == Pruned(old(s.kem), now) && forall id :: id in s.kem ==> IsFips203(s.kem[id])
    ensures s.replay == set i | i in old(s.replay) && i.kemId in s.kem
    ensures r.Ok? <==> spkId in s.spk && s.spk[spkId].Some? && CurrentLastResort(old(s.kem)).Some? && AllReadable(s.ec)
    ensures r.Ok? ==> Advertises(r.value, s.device, s.kem, s.ec, s.spk, spkId)
    ensures Stocked(old(s.kem), now, low) ==> Stocked(s.kem, now, low)
    ensures KemAllVerify(s.device, old(s.kem)) ==> KemAllVerify(s.device, s.kem)
    ensures r.Ok? && KemAllVerify(s.device, old(s.kem)) && SpkAllVerify(s.device, s.spk) ==> KeysVerify(s.device, r.value)
  {
    hide Advertises, Stocked, Run, KemAllVerify, SpkAllVerify, KeysVerify;
    PruningKeepsStock(s.kem, now, low);
    PrunedRowsVerify(s.device, s.kem, now);
    PruneStaleKyberPreKeys(s, now);
    r := RebuildBundle(s, spkId);
    if r.Ok? {
      RebuiltKeysVerify(r.value, s.device, s.kem, s.ec, s.spk, spkId);
    }
  }

  lemma PrunedRowsVerify(d: Device, kem: map<u32, KemRow>, now: nat)
    ensures KemAllVerify(d, kem) ==> KemAllVerify(d, Pruned(kem, now))
  {
    hide KemAllVerify;
    if KemAllVerify(d, kem) {
      FewerRowsVerify(d, kem, Pruned(kem, now));
    }
  }

  lemma RebuiltKeysVerify(b: Bundle, d: Device, kem: map<u32, KemRow>, ec: map<u32, Option<CurveKey>>,
      spk: map<u32, Option<SpkRecord>>, spkId: u32)
    requires Advertises(b, d, kem, ec, spk, spkId) && forall id :: id in kem ==> IsFips203(kem[id])
    ensures KemAllVerify(d, kem) && SpkAllVerify(d, spk) ==> KeysVerify(d, b)
  {
    hide Advertises, KemAllVerify, SpkAllVerify, KeysVerify;
    if KemAllVerify(d, kem) && SpkAllVerify(d, spk) {
      AdvertisedKeysVerify(b, d, kem, ec, spk, spkId);
    }
  }

  /** Maintains the published bundle: the first bundle while the first signed pre-key is missing,
      one pass over the tables afterwards. */
  method MaintainBundle(s: Store, now: nat, spkId: u32, kemId: u32, first: u32, target: u32, low: u32)
    returns (r: Result<Bundle, OmemoError>)
    requires s.Valid()
    requires if spkId in s.spk then IdsLeft(s.kem, s.ec, s.spk, now, target, low)
             else first + target <= LAST_ID + 1 && kemId + target <= LAST_ID
    modifies s
    ensures s.Valid() && s.accepted == old(s.accepted) && NoReplay(s.accepted)
    ensures r.Ok? <==> spkId !in old(s.spk) || CanMaintain(old(s.kem), old(s.ec), old(s.spk))
    ensures spkId in old(s.spk) && r.Ok? && low <= target ==>
              UpToDate(r.value, s.device, s.kem, s.ec, s.spk, now, low)
    ensures spkId !in old(s.spk) ==>
              && spkId in s.spk && s.spk[spkId].Some? && SignedBy(s.device, s.spk[spkId].value.publicKey, r.value)
              && ListsEc(r.value.prekeys, s.ec, Range(first, target))
              && ListsKem(r.value.kemPrekeys, s.kem, Range(kemId + 1, target))
    ensures spkId !in old(s.spk) && old(s.kem) == map[] && old(s.ec) == map[] ==>
              Advertises(r.value, s.device, s.kem, s.ec, s.spk, spkId)
    ensures spkId in old(s.spk) && r.Ok? ==> KemKept(old(s.kem), old(s.replay), s.kem, s.replay, now)
    ensures r.Ok? && Lawful(s.device) && KemAllVerify(s.device, old(s.kem)) && SpkAllVerify(s.device, old(s.spk)) ==>
              KeysVerify(s.device, r.value)
    ensures Lawful(s.device) && KemAllVerify(s.device, old(s.kem)) && SpkAllVerify(s.device, old(s.spk)) ==>
              KemAllVerify(s.device, s.kem) && SpkAllVerify(s.device, s.spk)
  {
    hide Lawful, KemAllVerify, SpkAllVerify, KeysVerify, KemKept;
    hide UpToDate, Run, NoReplay, ListedMadeAt, EcDrawn, KemMadeAt, SpkMadeAt, IdsLeft, SignedBy, ListsEc, ListsKem;
    if spkId in s.spk {
      r := UpkeepBundle(s, now, spkId, target, low);
    } else {
      var b := GenerateAndStorePreKeys(s, now, spkId, kemId, first, target);
      RotatedSpkVerifies(s.device, old(s.spk), s.spk, old(s.draws) + target);
      if Lawful(s.device) && KemAllVerify(s.device, old(s.kem)) {
        FirstRowsVerify(s.device, old(s.kem), s.kem, kemId, target, b.kemPrekeys, old(s.draws) + target + 2,
                        old(s.draws) + target + 4);
      }
      if Lawful(s.device) {
        FirstKeysVerify(b, s.device, s.spk[spkId].value, s.kem[kemId].record.value,
                        old(s.draws) + target, old(s.draws) + target + 2, old(s.draws) + target + 4);
      }
      if old(s.kem) == map[] && old(s.ec) == map[] {
        FirstBundleIsComplete(b, s.kem, s.ec, kemId, first, target);
      }
      r := Ok(b);
    }
    s.NeverReplayed();
  }
}
