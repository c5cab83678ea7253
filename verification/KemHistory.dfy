/**
  The KEM pre-key table and the last-resort replay table as a state machine, with the history
  a safety claim needs: which generation of key material each row holds, and which handshakes
  were accepted so far.

  Ids are reused: a new key takes the largest live id plus one, so a deleted id can come back
  holding other key material. A generation never comes back, and that is what "the same key"
  means below.
 */
module KemHistory {
  import opened Wrappers
  import opened OmemoTypes

  /** One (KEM id, signed pre-key id, base key) initiation, as the replay table stores it. */
  datatype Initiation = Initiation(kemId: u32, spkId: u32, baseKey: Bytes)

  /** One accepted handshake: the initiation, the generation it used, and the kind of its key. */
  datatype Accepted = Accepted(what: Initiation, generation: nat, lastResort: bool)

  datatype Tables = Tables(
    kem: map<u32, KemRow>,
    replay: set<Initiation>,
    generation: map<u32, nat>,   // which generation each live row holds
    nextGeneration: nat,
    accepted: seq<Accepted>)

  /** What the store can be asked to do to these two tables, one indivisible step each. */
  datatype Step =
    | Store(id: u32, record: Option<KemRecord>, lastResort: bool)
    | Delete(id: u32)
    | PruneOrphans
    | Reset
    | Handshake(what: Initiation)
    | MarkUnloaded(what: Initiation)    // a mark for a key that a load refuses

  const EMPTY: Tables := Tables(map[], {}, map[], 0, [])

  /** An upsert: new key material under `id`. A row that was there keeps its `used` flag. */
  function StoreRow(kem: map<u32, KemRow>, id: u32, record: Option<KemRecord>, lastResort: bool): map<u32, KemRow> {
    kem[id := KemRow(record, lastResort, id in kem && kem[id].used)]
  }

  /** `get_kyber_pre_key` succeeds: the row is there, readable, and not a consumed one-time key. */
  predicate Loadable(kem: map<u32, KemRow>, id: u32) {
    id in kem && kem[id].record.Some? && (kem[id].used ==> kem[id].lastResort)
  }

  /** Both halves of accepting a handshake succeed: loading the key, then marking it used. */
  predicate Accepts(t: Tables, i: Initiation) {
    Loadable(t.kem, i.kemId) && (t.kem[i.kemId].lastResort ==> i !in t.replay)
  }

  ghost predicate Consistent(t: Tables) {
    t.generation.Keys == t.kem.Keys
  }

  function GenerationOf(t: Tables, id: u32): nat {
    if id in t.generation then t.generation[id] else 0
  }

  function Apply(t: Tables, step: Step): Tables {
    match step
    case Store(id, record, lastResort) =>
      t.(kem := StoreRow(t.kem, id, record, lastResort),
         generation := t.generation[id := t.nextGeneration],
         nextGeneration := t.nextGeneration + 1)
    case Delete(id) =>
      t.(kem := t.kem - {id}, generation := t.generation - {id})
    case PruneOrphans =>
      t.(replay := set i | i in t.replay && i.kemId in t.kem)
    case Reset =>
      t.(kem := map[], generation := map[], replay := {})
    case Handshake(i) =>
      if !Accepts(t, i) then t
      else
        var row := t.kem[i.kemId];
        var entry := Accepted(i, GenerationOf(t, i.kemId), row.lastResort);
        if row.lastResort then
          t.(replay := t.replay + {i}, accepted := t.accepted + [entry])
        else
          t.(kem := t.kem[i.kemId := row.(used := true)], accepted := t.accepted + [entry])
    case MarkUnloaded(i) =>
      if i.kemId !in t.kem || Loadable(t.kem, i.kemId) then t
      else if t.kem[i.kemId].lastResort then t.(replay := t.replay + {i})
      else t.(kem := t.kem[i.kemId := t.kem[i.kemId].(used := true)])
  }

  function Run(t: Tables, steps: seq<Step>): Tables {
    if steps == [] then t else Apply(Run(t, steps[..|steps| - 1]), steps[|steps| - 1])
  }

  lemma RunOneMore(t: Tables, steps: seq<Step>, step: Step)
    ensures Run(t, steps + [step]) == Apply(Run(t, steps), step)
  {
    assert (steps + [step])[..|steps|] == steps;
  }
}
