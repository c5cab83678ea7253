/**
  Our own pre-key tables, and the maintenance pass that keeps the published bundle usable.

  One object is one account's store. The ghost fields are the history `KemHistory` reasons about:
  `Valid` says that the tables are what the recorded steps lead to, so everything proved there
  about runs holds of every object here. One maintenance pass reads the clock once (`now`).
 */
module OwnKeys {
  import opened Wrappers
  import opened OmemoTypes
  import opened IdSets
  import opened KemHistory
  import opened KemSafety

  const DAY_MS: nat := 24 * 60 * 60 * 1000
  const KEM_SPK_ROTATION_MS: nat := 30 * DAY_MS
  const SIGNED_PREKEY_ROTATION_MS: nat := 30 * DAY_MS
  const KEM_PREKEY_MAX_AGE_MS: nat := 90 * DAY_MS
  const LAST_ID: nat := 0xFFFF_FFFF

  function SaturatingSub(a: nat, b: nat): nat {
    if a < b then 0 else a - b
  }

  /** `max as u32 + 1`, as a build without overflow checks computes it. */
  function NextId(ids: set<u32>): u32 {
    if MaxOf(ids) == LAST_ID then 0 else MaxOf(ids) + 1
  }

  /** The next id is free in every table, except when ids have run out and 0 is taken. */
  lemma NextIdIsFreeIff(ids: set<u32>)
    ensures NextId(ids) !in ids <==> MaxOf(ids) < LAST_ID || 0 !in ids
  {
    if MaxOf(ids) < LAST_ID {
      assert MaxOf(ids) + 1 !in ids;
    }
  }

  // ---- what the rows of a KEM table mean -------------------------------

  predicate IsFips203(row: KemRow) {
    row.record.Some? && IsMlKem1024(row.record.value.publicKey)
  }

  function LastResorts(kem: map<u32, KemRow>): set<u32> {
    set id | id in kem && kem[id].lastResort
  }

  function Available(kem: map<u32, KemRow>): set<u32> {
    set id | id in kem && !kem[id].lastResort && !kem[id].used
  }

  /** The current last-resort key: the newest id wins. */
  function CurrentLastResort(kem: map<u32, KemRow>): Option<u32> {
    if LastResorts(kem) == {} then None else Some(MaxOf(LastResorts(kem)))
  }

  function Purged(kem: map<u32, KemRow>): map<u32, KemRow> {
    map id | id in kem && IsFips203(kem[id]) :: kem[id]
  }

  /** Can no longer serve: a consumed one-time key or a superseded last-resort key, past its age. */
  predicate Stale(kem: map<u32, KemRow>, id: u32, now: nat)
    requires id in kem
  {
    && CurrentLastResort(kem) != Some(id)
    && (kem[id].used || kem[id].lastResort)
    && kem[id].record.Some?
    && kem[id].record.value.timestamp < SaturatingSub(now, KEM_PREKEY_MAX_AGE_MS)
  }

  function Pruned(kem: map<u32, KemRow>, now: nat): map<u32, KemRow> {
    map id | id in kem && !Stale(kem, id, now) :: kem[id]
  }

  /** `after` is `before` plus rows under the `n` ids after `from`, which were free; no row of
      `before` changed. */
  ghost predicate Grew<T>(before: map<u32, T>, after: map<u32, T>, from: nat, n: nat) {
    && (forall id :: id in before ==> id <= from && id in after && after[id] == before[id])
    && (forall id :: id in after ==> id in before || from < id <= from + n)
    && (forall id: u32 :: from < id <= from + n ==> id in after)
  }

  class Store {
    const device: Device
    var kem: map<u32, KemRow>
    var ec: map<u32, Option<CurveKey>>
    var spk: map<u32, Option<SpkRecord>>
    var replay: set<Initiation>
    var draws: nat

    ghost var generation: map<u32, nat>
    ghost var nextGeneration: nat
    ghost var accepted: seq<Accepted>
    ghost var trace: seq<Step>

    ghost function Now(): Tables
      reads this`kem, this`replay, this`generation, this`nextGeneration, this`accepted
    {
      Tables(kem, replay, generation, nextGeneration, accepted)
    }

    ghost predicate Valid()
      reads this`kem, this`replay, this`generation, this`nextGeneration, this`accepted, this`trace
    {
      Now() == Run(EMPTY, trace)
    }

    constructor (device: Device)
      ensures Valid() && this.device == device
      ensures kem == map[] && ec == map[] && spk == map[] && replay == {} && accepted == []
    {
      this.device := device;
      kem, ec, spk, replay, draws := map[], map[], map[], {}, 0;
      generation, nextGeneration, accepted, trace := map[], 0, [], [];
    }

    /** The reason the history is kept: in no reachable store was a handshake replayed. */
    lemma NeverReplayed()
      requires Valid()
      ensures Guarded(Now()) && NoReplay(accepted)
    {
      RunKeepsGuarded(EMPTY, trace);
    }

    // ---- single writes ---------------------------------------------------

    ghost method Note(step: Step)
      requires Run(EMPTY, trace).(accepted := accepted, generation := generation, nextGeneration := nextGeneration)
            == Run(EMPTY, trace)
      modifies this`generation, this`nextGeneration, this`accepted, this`trace
      ensures trace == old(trace) + [step]
      ensures var t := Apply(Run(EMPTY, old(trace)), step);
              generation == t.generation && nextGeneration == t.nextGeneration && accepted == t.accepted
      ensures Run(EMPTY, trace) == Apply(Run(EMPTY, old(trace)), step)
    {
      hide Apply, Run;
      RunOneMore(EMPTY, trace, step);
      var t := Apply(Run(EMPTY, trace), step);
      generation, nextGeneration, accepted := t.generation, t.nextGeneration, t.accepted;
      trace := trace + [step];
    }

    method StoreKyberPreKey(id: u32, record: Option<KemRecord>, lastResort: bool)
      requires Valid()
      modifies this`kem, this`generation, this`nextGeneration, this`accepted, this`trace
      ensures Valid() && accepted == old(accepted)
      ensures kem == StoreRow(old(kem), id, record, lastResort)
      ensures trace == old(trace) + [Step.Store(id, record, lastResort)]
      ensures Now() == Apply(old(Now()), Step.Store(id, record, lastResort))
    {
      kem := kem[id := KemRow(record, lastResort, id in kem && kem[id].used)];
      Note(Step.Store(id, record, lastResort));
    }

    method DeleteKyberPreKey(id: u32)
      requires Valid()
      modifies this`kem, this`generation, this`nextGeneration, this`accepted, this`trace
      ensures Valid() && accepted == old(accepted)
      ensures kem == old(kem) - {id}
      ensures trace == old(trace) + [Delete(id)] && Now() == Apply(old(Now()), Delete(id))
    {
      kem := kem - {id};
      Note(Delete(id));
    }

    method PruneOrphanedReplayRecords()
      requires Valid()
      modifies this`replay, this`generation, this`nextGeneration, this`accepted, this`trace
      ensures Valid() && accepted == old(accepted)
      ensures replay == set i | i in old(replay) && i.kemId in kem
      ensures trace == old(trace) + [PruneOrphans] && Now() == Apply(old(Now()), PruneOrphans)
    {
      replay := set i | i in replay && i.kemId in kem;
      Note(PruneOrphans);
    }

    method ResetOwnState()
      requires Valid()
      modifies this
      ensures Valid() && accepted == old(accepted)
      ensures kem == map[] && ec == map[] && spk == map[] && replay == {}
      ensures trace == old(trace) + [Reset] && Now() == Apply(old(Now()), Reset)
    {
      kem, ec, spk, replay := map[], map[], map[], {};
      Note(Reset);
    }

    method RemovePreKey(id: u32)
      requires Valid()
      modifies this`ec
      ensures Valid() && ec == old(ec) - {id}
    {
      ec := ec - {id};
    }

    // ---- accepting a handshake ------------------------------------------

    method GetKyberPreKey(id: u32) returns (r: Result<KemRecord, OmemoError>)
      ensures r.Ok? <==> Loadable(kem, id)
      ensures r.Ok? ==> kem[id].record == Some(r.value)
    {
      if id !in kem {
        return Err(Signal);
      }
      var row := kem[id];
      if row.used && !row.lastResort {
        return Err(Signal);
      }
      match row.record
      case Some(record) => return Ok(record);
      case None => return Err(Signal);
    }

    /** Marks a key as used. For one that a load has just given out this completes the handshake;
        otherwise a last-resort key still gets its replay tuple, another row its flag, and a missing
        row nothing. */
    method MarkKyberPreKeyUsed(i: Initiation) returns (r: Result<(), OmemoError>)
      requires Valid()
      modifies this`kem, this`replay, this`generation, this`nextGeneration, this`accepted, this`trace
      ensures Valid()
      ensures r.Err? <==> i.kemId in old(kem) && old(kem)[i.kemId].lastResort && i in old(replay)
      ensures kem == if i.kemId in old(kem) && !old(kem)[i.kemId].lastResort
                     then old(kem)[i.kemId := old(kem)[i.kemId].(used := true)] else old(kem)
      ensures replay == if i.kemId in old(kem) && old(kem)[i.kemId].lastResort then old(replay) + {i} else old(replay)
      ensures var step := if Loadable(old(kem), i.kemId) then Handshake(i) else MarkUnloaded(i);
              trace == old(trace) + [step] && Now() == Apply(old(Now()), step)
    {
      ghost var step := if Loadable(kem, i.kemId) then Handshake(i) else MarkUnloaded(i);
      if i.kemId in kem && kem[i.kemId].lastResort {
        if i in replay {
          assert replay + {i} == replay;
          Note(step);
          return Err(Signal);
        }
        replay := replay + {i};
      } else if i.kemId in kem {
        kem := kem[i.kemId := kem[i.kemId].(used := true)];
      }
      Note(step);
      r := Ok(());
    }

    /** One inbound key exchange: the KEM key is loaded, then marked, as one indivisible step.
        It succeeds at most once for a one-time key, and at most once for each initiation of a
        last-resort key, whatever happened to the tables before. */
    method AcceptHandshake(i: Initiation) returns (r: Result<KemRecord, OmemoError>)
      requires Valid()
      modifies this`kem, this`replay, this`generation, this`nextGeneration, this`accepted, this`trace
      ensures Valid() && NoReplay(accepted)
      ensures r.Ok? <==> old(Accepts(Now(), i))
      ensures r.Ok? ==>
        && i.kemId in old(kem) && old(kem)[i.kemId].record == Some(r.value)
        && |accepted| == |old(accepted)| + 1 && old(accepted) == accepted[..|old(accepted)|]
        && accepted[|old(accepted)|].what == i
      ensures r.Err? ==> Now() == old(Now())
      ensures trace == old(trace) + if Loadable(old(kem), i.kemId) then [Handshake(i)] else []
    {
      r := GetKyberPreKey(i.kemId);
      if r.Ok? {
        var marked := MarkKyberPreKeyUsed(i);
        if marked.Err? {
          r := Err(marked.error);
        }
      }
      NeverReplayed();
    }
  }
}
