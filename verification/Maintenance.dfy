/** Publishing our own bundle: first generation, upkeep on every later pass, and the signature over it. */
module Maintenance {
  import opened Wrappers
  import opened OmemoTypes
  import opened IdSets
  import opened KemHistory
  import opened KemSafety
  import opened OwnKeys

  /** How many keys a pool below `low` is short of `target`. */
  function Shortfall(count: nat, target: nat, low: nat): nat {
    if count < low && count < target then target - count else 0
  }

  /** A row as maintenance makes it: ML-KEM-1024, made `now`, not consumed. */
  predicate NewKemRow(row: KemRow, lastResort: bool, now: nat) {
    row.lastResort == lastResort && !row.used && IsFips203(row) && row.record.value.timestamp == now
  }

  method DrawCurveKey(s: Store) returns (key: CurveKey)
    modifies s`draws
    ensures key == s.device.curveKey(old(s.draws)) && s.draws == old(s.draws) + 1
  {
    key := s.device.curveKey(s.draws);
    s.draws := s.draws + 1;
  }

  method DrawSignature(s: Store, message: Bytes) returns (sig: Bytes)
    modifies s`draws
    ensures sig == s.device.sign(message, old(s.draws)) && s.draws == old(s.draws) + 1
  {
    sig := s.device.sign(message, s.draws);
    s.draws := s.draws + 1;
  }

  /** `KyberPreKeyRecord::generate` for the ML-KEM-1024 key type. */
  method GenerateKemRecord(s: Store, now: nat) returns (record: KemRecord)
    modifies s`draws
    ensures IsMlKem1024(record.publicKey) && record.timestamp == now
    ensures KemMadeAt(s.device, record, old(s.draws)) && s.draws == old(s.draws) + 2
    ensures Lawful(s.device) ==> KemVerifies(s.device, record.publicKey, record.signature)
  {
    var key := [ML_KEM_1024_TAG] + s.device.kemKey(s.draws);
    s.draws := s.draws + 1;
    var sig := DrawSignature(s, key);
    record := KemRecord(key, sig, now);
    if Lawful(s.device) {
      MadeHereVerifies(s.device, old(s.draws));
    }
  }

  /** Drops every KEM row that is unreadable or not FIPS 203, and nothing else. */
  method PurgeNonMlKemPreKeys(s: Store)
    requires s.Valid()
    modifies s`kem, s`generation, s`nextGeneration, s`accepted, s`trace
    ensures s.Valid() && s.accepted == old(s.accepted)
    ensures s.kem == Purged(old(s.kem))
    ensures forall id :: id in s.kem <==>
              id in old(s.kem) && old(s.kem)[id].record.Some?
              && old(s.kem)[id].record.value.publicKey != [] && old(s.kem)[id].record.value.publicKey[0] == 10
  {
    var rows := s.kem;
    var todo := rows.Keys;
    while todo != {}
      invariant s.Valid() && s.accepted == old(s.accepted)
      invariant todo <= rows.Keys
      invariant forall id :: id in s.kem <==> id in rows && (id in todo || IsFips203(rows[id]))
      invariant forall id :: id in s.kem ==> s.kem[id] == rows[id]
      decreases |todo|
    {
      var id :| id in todo;
      if !IsFips203(rows[id]) {
        s.DeleteKyberPreKey(id);
      }
      todo := todo - {id};
    }
  }

  lemma OneMoreRow<T>(before: map<u32, T>, mid: map<u32, T>, from: nat, n: nat, row: T)
    requires Grew(before, mid, from, n) && from + n < LAST_ID
    ensures from + n + 1 !in mid
    ensures Grew(before, mid[from + n + 1 := row], from, n + 1)
  {
  }

  lemma GrownBy<T>(before: map<u32, T>, after: map<u32, T>, from: nat, n: nat)
    requires Grew(before, after, from, n) && from + n <= LAST_ID
    ensures |after| == |before| + n && (n == 0 ==> after == before)
  {
    AddedCount(before, after, from, n);
    assert after.Keys == before.Keys + Added(before, after);
    assert |after| == |after.Keys| && |before| == |before.Keys|;
  }

  function Added<T>(before: map<u32, T>, after: map<u32, T>): set<u32> {
    set id | id in after && id !in before
  }

  lemma AddedCount<T>(before: map<u32, T>, after: map<u32, T>, from: nat, n: nat)
    requires Grew(before, after, from, n) && from + n <= LAST_ID
    ensures |Added(before, after)| == n
  {
    forall x ensures x in Added(before, after) <==> from + 1 <= x < from + 1 + n {
      if from < x <= from + n {
        var id: u32 := x;
        assert id in after;
      }
    }
    RangeInOrder(Added(before, after), from + 1, n);
  }

  /** The same for EC keys, one draw each. */
  ghost predicate EcRowsFrom(d: Device, before: map<u32, Option<CurveKey>>, after: map<u32, Option<CurveKey>>, from: nat,
      draw: nat) {
    forall id :: id in after && id !in before ==> from < id && after[id] == Some(d.curveKey(draw + (id - from - 1)))
  }

  lemma NoEcRowsYet(d: Device, before: map<u32, Option<CurveKey>>, from: nat, draw: nat)
    ensures EcRowsFrom(d, before, before, from, draw)
    ensures MaxOf(before.Keys) == from ==> Grew(before, before, from, 0)
  {
  }

  lemma OneMoreEcRow(d: Device, before: map<u32, Option<CurveKey>>, mid: map<u32, Option<CurveKey>>, from: nat, n: nat,
      draw: nat)
    requires from + n < LAST_ID && EcRowsFrom(d, before, mid, from, draw)
    ensures EcRowsFrom(d, before, mid[from + n + 1 := Some(d.curveKey(draw + n))], from, draw)
  {
  }

  /** Tops the EC pool up to `target` once it is below `low`, under ids that follow the largest. */
  method ReplenishEc(s: Store, target: u32, low: u32)
    requires s.Valid() && MaxOf(s.ec.Keys) + Shortfall(|s.ec|, target, low) <= LAST_ID
    modifies s`ec, s`draws
    ensures s.Valid()
    ensures Grew(old(s.ec), s.ec, MaxOf(old(s.ec.Keys)), Shortfall(|old(s.ec)|, target, low))
    ensures EcRowsFrom(s.device, old(s.ec), s.ec, MaxOf(old(s.ec.Keys)), old(s.draws))
    ensures |old(s.ec)| >= low ==> s.ec == old(s.ec)
    ensures |old(s.ec)| < low && |old(s.ec)| <= target ==> |s.ec| == target
  {
    hide Run, Guarded, Grew, EcRowsFrom;
    ghost var draw := s.draws;
    var count, max := |s.ec|, MaxOf(s.ec.Keys);
    var short := Shortfall(count, target, low);
    var added, next := 0, max;
    ghost var before := s.ec;
    NoEcRowsYet(s.device, before, max, draw);
    while added < short
      invariant s.Valid() && added <= short && next == max + added
      invariant Grew(before, s.ec, max, added)
      invariant s.draws == draw + added
      invariant EcRowsFrom(s.device, before, s.ec, max, draw)
    {
      var key := DrawCurveKey(s);
      OneMoreRow(before, s.ec, max, added, Some(key));
      OneMoreEcRow(s.device, before, s.ec, max, added, draw);
      next := next + 1;
      s.ec := s.ec[next := Some(key)];
      added := added + 1;
    }
    GrownBy(before, s.ec, max, short);
  }

  /** A new ML-KEM-1024 key under an id that is free. */
  method AddKemKey(s: Store, id: u32, lastResort: bool, now: nat)
    requires s.Valid() && id !in s.kem
    modifies s`kem, s`draws, s`generation, s`nextGeneration, s`accepted, s`trace
    ensures s.Valid() && s.accepted == old(s.accepted)
    ensures id in s.kem && s.kem == old(s.kem)[id := s.kem[id]] && NewKemRow(s.kem[id], lastResort, now)
    ensures KemMadeAt(s.device, s.kem[id].record.value, old(s.draws)) && s.draws == old(s.draws) + 2
  {
    var record := GenerateKemRecord(s, now);
    s.StoreKyberPreKey(id, Some(record), lastResort);
  }

  /** The rows that `after` has beyond `before` are one-time keys made in the order of their ids, each
      from draws of its own. */
  ghost predicate KemRowsFrom(d: Device, before: map<u32, KemRow>, after: map<u32, KemRow>, from: nat, draw: nat, now: nat) {
    forall id :: id in after && id !in before ==>
      && from < id && NewKemRow(after[id], false, now)
      && KemMadeAt(d, after[id].record.value, draw + 2 * (id - from - 1))
  }

  lemma NoRowsYet(d: Device, before: map<u32, KemRow>, from: nat, draw: nat, now: nat)
    ensures KemRowsFrom(d, before, before, from, draw, now)
    ensures MaxOf(before.Keys) == from ==> Grew(before, before, from, 0)
  {
  }

  lemma OneMoreKemRow(d: Device, before: map<u32, KemRow>, mid: map<u32, KemRow>, from: nat, n: nat, draw: nat, now: nat,
      row: KemRow)
    requires from + n < LAST_ID && KemRowsFrom(d, before, mid, from, draw, now)
    requires NewKemRow(row, false, now) && KemMadeAt(d, row.record.value, draw + 2 * n)
    ensures KemRowsFrom(d, before, mid[from + n + 1 := row], from, draw, now)
  {
  }

  lemma AvailableGrownBy(d: Device, before: map<u32, KemRow>, after: map<u32, KemRow>, from: nat, n: nat, draw: nat, now: nat)
    requires Grew(before, after, from, n) && from + n <= LAST_ID && KemRowsFrom(d, before, after, from, draw, now)
    ensures |Available(after)| == |Available(before)| + n
  {
    hide KemMadeAt, IsFips203;
    AddedCount(before, after, from, n);
    assert Available(after) == Available(before) + Added(before, after);
    assert Available(before) !! Added(before, after);
  }

  method ReplenishKem(s: Store, target: u32, low: u32, now: nat)
    requires s.Valid() && MaxOf(s.kem.Keys) + Shortfall(|Available(s.kem)|, target, low) <= LAST_ID
    modifies s`kem, s`draws, s`generation, s`nextGeneration, s`accepted, s`trace
    ensures s.Valid() && s.accepted == old(s.accepted)
    ensures Grew(old(s.kem), s.kem,
                 MaxOf(old(s.kem.Keys)), Shortfall(|Available(old(s.kem))|, target, low))
    ensures KemRowsFrom(s.device, old(s.kem), s.kem, MaxOf(old(s.kem.Keys)), old(s.draws), now)
    ensures |Available(old(s.kem))| >= low ==> s.kem == old(s.kem)
    ensures |Available(old(s.kem))| < low && |Available(old(s.kem))| <= target ==> |Available(s.kem)| == target
  {
    hide Run, Grew, KemRowsFrom, NewKemRow, KemMadeAt;
    ghost var draw := s.draws;
    var count, max := |Available(s.kem)|, MaxOf(s.kem.Keys);
    var short := Shortfall(count, target, low);
    var added, next := 0, max;
    ghost var before := s.kem;
    NoRowsYet(s.device, before, max, draw, now);
    while added < short
      invariant s.Valid() && s.accepted == old(s.accepted) && added <= short && next == max + added
      invariant Grew(before, s.kem, max, added)
      invariant s.draws == draw + 2 * added
      invariant KemRowsFrom(s.device, before, s.kem, max, draw, now)
    {
      next := next + 1;
      ghost var mid := s.kem;
      OneMoreRow(before, mid, max, added, KemRow(None, false, false));
      AddKemKey(s, next, false, now);
      OneMoreRow(before, mid, max, added, s.kem[next]);
      OneMoreKemRow(s.device, before, mid, max, added, draw, now, s.kem[next]);
      added := added + 1;
    }
    GrownBy(before, s.kem, max, short);
    AvailableGrownBy(s.device, before, s.kem, max, short, draw, now);
  }

  predicate TooOld(timestamp: nat, now: nat, limit: nat) {
    SaturatingSub(now, timestamp) > limit
  }

  /** The current last-resort key is readable and too old. */
  predicate LastResortDue(kem: map<u32, KemRow>, now: nat) {
    var current := CurrentLastResort(kem);
    && current.Some? && kem[current.value].record.Some?
    && TooOld(kem[current.value].record.value.timestamp, now, KEM_SPK_ROTATION_MS)
  }

  /** The newest signed pre-key is readable and too old. */
  predicate SignedPreKeyDue(spk: map<u32, Option<SpkRecord>>, now: nat) {
    && spk != map[] && spk[MaxOf(spk.Keys)].Some?
    && TooOld(spk[MaxOf(spk.Keys)].value.timestamp, now, SIGNED_PREKEY_ROTATION_MS)
  }

  /** A readable current last-resort key that is too old has a new one above it, under a free id and
      now current; otherwise nothing changed. */
  ghost predicate LastResortRotated(before: map<u32, KemRow>, after: map<u32, KemRow>, now: nat) {
    if LastResortDue(before, now) then
      var id := NextId(before.Keys);
      && id !in before && id in after && after == before[id := after[id]]
      && NewKemRow(after[id], true, now) && CurrentLastResort(after) == Some(id)
    else
      after == before
  }

  /** Makes a new last-resort key once the current one is older than 30 days; the new one is then
      current, and the old one keeps its row. */
  method RotateLastResortIfDue(s: Store, now: nat) returns (r: Result<(), OmemoError>)
    requires s.Valid() && (LastResortDue(s.kem, now) ==> MaxOf(s.kem.Keys) < LAST_ID)
    modifies s`kem, s`draws, s`generation, s`nextGeneration, s`accepted, s`trace
    ensures s.Valid() && s.accepted == old(s.accepted)
    ensures r.Ok? <==> CurrentLastResort(old(s.kem)).None?
                       || old(s.kem)[CurrentLastResort(old(s.kem)).value].record.Some?
    ensures if r.Ok? then LastResortRotated(old(s.kem), s.kem, now) else s.kem == old(s.kem)
    ensures forall id :: id in s.kem && id !in old(s.kem) ==> KemMadeAt(s.device, s.kem[id].record.value, old(s.draws))
    ensures var current := CurrentLastResort(old(s.kem));
            r.Ok? ==> (s.kem != old(s.kem) <==>
                         && current.Some?
                         && now > old(s.kem)[current.value].record.value.timestamp + 30 * 24 * 60 * 60 * 1000)
  {
    var current := CurrentLastResort(s.kem);
    if current.None? {
      return Ok(());
    }
    var row := s.kem[current.value];
    if row.record.None? {
      return Err(Signal);
    }
    if SaturatingSub(now, row.record.value.timestamp) <= KEM_SPK_ROTATION_MS {
      return Ok(());
    }
    var next := NextId(s.kem.Keys);
    AddKemKey(s, next, true, now);
    assert next in LastResorts(s.kem) && LastResorts(s.kem) == LastResorts(old(s.kem)) + {next};
    r := Ok(());
  }

  /** Makes a new signed pre-key, under the next id, once the newest is older than 30 days, and
      returns the id to publish. Superseded keys keep their ids and their rows. */
  method RotateSignedPreKeyIfDue(s: Store, now: nat, fallback: u32) returns (r: Result<u32, OmemoError>)
    requires s.Valid() && (SignedPreKeyDue(s.spk, now) ==> MaxOf(s.spk.Keys) < LAST_ID)
    modifies s`spk, s`draws
    ensures s.Valid()
    ensures if old(s.spk) == map[] then r == Ok(fallback) && s.spk == old(s.spk)
            else
              var newest := MaxOf(old(s.spk.Keys));
              && (r.Ok? <==> old(s.spk)[newest].Some?)
              && (if SignedPreKeyDue(old(s.spk), now) then
                    && r.value == newest + 1 && r.value !in old(s.spk) && r.value in s.spk
                    && s.spk == old(s.spk)[r.value := s.spk[r.value]]
                    && s.spk[r.value].Some? && s.spk[r.value].value.id == r.value
                    && s.spk[r.value].value.timestamp == now
                    && SpkMadeAt(s.device, s.spk[r.value].value, old(s.draws))
                  else s.spk == old(s.spk) && (r.Ok? ==> r.value == newest))
    ensures r.Ok? && old(s.spk) != map[] ==>
              (s.spk != old(s.spk) <==>
                 now > old(s.spk)[MaxOf(old(s.spk.Keys))].value.timestamp + 30 * 24 * 60 * 60 * 1000)
    ensures r.Ok? && old(s.spk) != map[] ==>
              && r.value == MaxOf(s.spk.Keys) && r.value in s.spk && s.spk[r.value].Some?
              && !TooOld(s.spk[r.value].value.timestamp, now, SIGNED_PREKEY_ROTATION_MS)
  {
    if s.spk == map[] {
      return Ok(fallback);
    }
    var newest := MaxOf(s.spk.Keys);
    assert newest in s.spk.Keys;
    match s.spk[newest] {
      case None => return Err(Signal);
      case Some(record) =>
        if SaturatingSub(now, record.timestamp) <= SIGNED_PREKEY_ROTATION_MS {
          return Ok(newest);
        }
    }
    var next := newest + 1;
    var key := DrawCurveKey(s);
    var sig := DrawSignature(s, key);
    s.spk := s.spk[next := Some(SpkRecord(next, key, sig, now))];
    r := Ok(next);
  }

  /** Deletes what can no longer serve, then the replay tuples of keys that are gone. */
  method PruneStaleKyberPreKeys(s: Store, now: nat)
    requires s.Valid()
    modifies s`kem, s`replay, s`generation, s`nextGeneration, s`accepted, s`trace
    ensures s.Valid() && s.accepted == old(s.accepted)
    ensures s.kem == Pruned(old(s.kem), now)
    ensures s.replay == set i | i in old(s.replay) && i.kemId in s.kem
  {
    var rows := s.kem;
    var cutoff := SaturatingSub(now, KEM_PREKEY_MAX_AGE_MS);
    var current := CurrentLastResort(rows);
    var todo := rows.Keys;
    while todo != {}
      invariant s.Valid() && s.accepted == old(s.accepted) && s.replay == old(s.replay)
      invariant todo <= rows.Keys
      invariant forall id :: id in s.kem <==> id in rows && (id in todo || !Stale(rows, id, now))
      invariant forall id :: id in s.kem ==> s.kem[id] == rows[id]
      decreases |todo|
    {
      var id :| id in todo;
      todo := todo - {id};
      if Some(id) == current {
        continue;
      }
      var row := rows[id];
      if !row.used && !row.lastResort {
        continue;
      }
      if row.record.Some? && row.record.value.timestamp < cutoff {
        s.DeleteKyberPreKey(id);
      }
    }
    s.PruneOrphanedReplayRecords();
  }
}
