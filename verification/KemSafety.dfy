/** What holds of accepted handshakes in every run of `KemHistory`. */
module KemSafety {
  import opened Wrappers
  import opened OmemoTypes
  import opened KemHistory

  /** No generation of key material is accepted twice, except a last-resort key for a new initiation. */
  ghost predicate NoReplay(accepted: seq<Accepted>) {
    forall i, j :: 0 <= i < j < |accepted| && accepted[i].generation == accepted[j].generation ==>
      accepted[i].lastResort && accepted[j].lastResort && accepted[i].what != accepted[j].what
  }

  /** Generations are unique to a row, and none was handed out that is not below the counter. */
  ghost predicate GenerationsOk(t: Tables) {
    && Consistent(t)
    && (forall id :: id in t.generation ==> t.generation[id] < t.nextGeneration)
    && (forall a, b :: a in t.generation && b in t.generation && t.generation[a] == t.generation[b] ==> a == b)
    && (forall k :: 0 <= k < |t.accepted| ==> t.accepted[k].generation < t.nextGeneration)
  }

  /** As long as its key is live, an accepted handshake is on record: a flag or a replay tuple. */
  ghost predicate Recorded(t: Tables, a: Accepted)
    requires Consistent(t)
  {
    forall id :: id in t.generation && t.generation[id] == a.generation ==>
      && id == a.what.kemId
      && t.kem[id].lastResort == a.lastResort
      && (if a.lastResort then a.what in t.replay else t.kem[id].used)
  }

  ghost predicate Guarded(t: Tables) {
    && GenerationsOk(t)
    && (forall k :: 0 <= k < |t.accepted| ==> Recorded(t, t.accepted[k]))
    && NoReplay(t.accepted)
  }

  lemma HandshakeKeepsRecords(t: Tables, i: Initiation, a: Accepted)
    requires GenerationsOk(t) && Accepts(t, i) && Recorded(t, a)
    ensures Consistent(Apply(t, Handshake(i))) && Recorded(Apply(t, Handshake(i)), a)
  {
  }

  lemma HandshakeKeepsGenerations(t: Tables, i: Initiation)
    requires GenerationsOk(t) && Accepts(t, i)
    ensures GenerationsOk(Apply(t, Handshake(i)))
  {
  }

  /** The record of an accepted handshake is what refuses a replay of it. */
  lemma RecordRefusesReplay(t: Tables, i: Initiation, a: Accepted)
    requires Consistent(t) && Accepts(t, i) && Recorded(t, a) && a.generation == GenerationOf(t, i.kemId)
    ensures a.lastResort && t.kem[i.kemId].lastResort && a.what != i
  {
  }

  lemma HandshakeKeepsGuarded(t: Tables, i: Initiation)
    requires Guarded(t) && Accepts(t, i)
    ensures Guarded(Apply(t, Handshake(i)))
  {
    var u := Apply(t, Handshake(i));
    HandshakeKeepsGenerations(t, i);
    forall k | 0 <= k < |t.accepted|
      ensures Recorded(u, t.accepted[k])
      ensures t.accepted[k].generation == GenerationOf(t, i.kemId) ==>
                t.accepted[k].lastResort && t.kem[i.kemId].lastResort && t.accepted[k].what != i
    {
      HandshakeKeepsRecords(t, i, t.accepted[k]);
      if t.accepted[k].generation == GenerationOf(t, i.kemId) {
        RecordRefusesReplay(t, i, t.accepted[k]);
      }
    }
    hide GenerationsOk;
    NewHandshakeIsRecorded(t, i);
    hide Recorded, Accepts;
  }

  lemma NewHandshakeIsRecorded(t: Tables, i: Initiation)
    requires GenerationsOk(t) && Accepts(t, i)
    ensures var u := Apply(t, Handshake(i));
            && u.accepted == t.accepted + [Accepted(i, GenerationOf(t, i.kemId), t.kem[i.kemId].lastResort)]
            && Consistent(u) && Recorded(u, u.accepted[|t.accepted|])
  {
  }

  /** Marking a key that was not loaded only adds to what is on record. */
  lemma MarkKeepsGuarded(t: Tables, i: Initiation)
    requires Guarded(t)
    ensures Guarded(Apply(t, MarkUnloaded(i)))
  {
    hide NoReplay;
    var u := Apply(t, MarkUnloaded(i));
    assert u.accepted == t.accepted && u.generation == t.generation && Consistent(u);
    forall k | 0 <= k < |u.accepted| ensures Recorded(u, u.accepted[k]) {
      MarkKeepsRecord(t, i, t.accepted[k]);
    }
  }

  lemma MarkKeepsRecord(t: Tables, i: Initiation, a: Accepted)
    requires Consistent(t) && Recorded(t, a)
    ensures Consistent(Apply(t, MarkUnloaded(i))) && Recorded(Apply(t, MarkUnloaded(i)), a)
  {
    hide Loadable;
  }

  lemma StepKeepsGuarded(t: Tables, step: Step)
    requires Guarded(t)
    ensures Guarded(Apply(t, step))
    ensures t.accepted <= Apply(t, step).accepted
  {
    if step.Handshake? {
      if Accepts(t, step.what) {
        HandshakeKeepsGuarded(t, step.what);
      }
    } else if step.MarkUnloaded? {
      MarkKeepsGuarded(t, step.what);
    } else {
      var u := Apply(t, step);
      forall k | 0 <= k < |u.accepted| ensures Recorded(u, u.accepted[k]) {
        assert Recorded(t, t.accepted[k]);
      }
    }
  }

  lemma {:induction false} RunKeepsGuarded(t: Tables, steps: seq<Step>)
    requires Guarded(t)
    ensures Guarded(Run(t, steps))
    ensures t.accepted <= Run(t, steps).accepted
  {
    if steps != [] {
      RunKeepsGuarded(t, steps[..|steps| - 1]);
      StepKeepsGuarded(Run(t, steps[..|steps| - 1]), steps[|steps| - 1]);
    }
  }

  /** Main result: in every run from an empty store, whatever is stored, deleted, pruned and reset
      in between, no handshake is accepted twice with the same key material. */
  lemma NoReplayInAnyRun(steps: seq<Step>)
    ensures NoReplay(Run(EMPTY, steps).accepted)
  {
    RunKeepsGuarded(EMPTY, steps);
  }

  /** Every store of the run hits an id that has no live row, as maintenance does, and a key is marked
      only after it was loaded, as libsignal does. */
  ghost predicate FreshStores(t: Tables, steps: seq<Step>) {
    && (forall k :: 0 <= k < |steps| && steps[k].Store? ==> steps[k].id !in Run(t, steps[..k]).kem)
    && (forall k :: 0 <= k < |steps| ==> !steps[k].MarkUnloaded?)
  }

  /** Every mark in the tables was put there by an accepted handshake. */
  ghost predicate Explained(t: Tables) {
    && Consistent(t)
    && (forall id :: id in t.kem && t.kem[id].used ==>
          exists k :: 0 <= k < |t.accepted| && t.accepted[k].generation == t.generation[id])
    && (forall i :: i in t.replay ==> exists k :: 0 <= k < |t.accepted| && t.accepted[k].what == i)
  }

  lemma StepKeepsExplained(t: Tables, step: Step)
    requires Explained(t) && (step.Store? ==> step.id !in t.kem) && !step.MarkUnloaded?
    ensures Explained(Apply(t, step))
  {
    var u := Apply(t, step);
    forall k | 0 <= k < |t.accepted| ensures u.accepted[k] == t.accepted[k] {}
    if step.Handshake? && Accepts(t, step.what) {
      assert u.accepted[|t.accepted|].what == step.what;
      assert u.accepted[|t.accepted|].generation == t.generation[step.what.kemId];
    }
    forall id | id in u.kem && u.kem[id].used
      ensures exists k :: 0 <= k < |u.accepted| && u.accepted[k].generation == u.generation[id]
    {
      if id in t.kem && t.kem[id].used {
        var k :| 0 <= k < |t.accepted| && t.accepted[k].generation == t.generation[id];
        assert u.accepted[k].generation == u.generation[id];
      }
    }
    forall i | i in u.replay ensures exists k :: 0 <= k < |u.accepted| && u.accepted[k].what == i {
      if i in t.replay {
        var k :| 0 <= k < |t.accepted| && t.accepted[k].what == i;
        assert u.accepted[k].what == i;
      }
    }
  }

  lemma {:induction false} RunKeepsExplained(t: Tables, steps: seq<Step>)
    requires Explained(t) && FreshStores(t, steps)
    ensures Explained(Run(t, steps))
  {
    if steps != [] {
      var front := steps[..|steps| - 1];
      forall k | 0 <= k < |front| && front[k].Store? ensures front[k].id !in Run(t, front[..k]).kem {
        assert steps[k].Store? && front[..k] == steps[..k];
      }
      assert forall k :: 0 <= k < |front| ==> front[k] == steps[k];
      RunKeepsExplained(t, front);
      StepKeepsExplained(Run(t, front), steps[|steps| - 1]);
    }
  }

  ghost predicate AcceptedBefore(t: Tables, i: Initiation) {
    exists k :: 0 <= k < |t.accepted| && t.accepted[k].what == i
  }

  ghost predicate GenerationUsed(t: Tables, generation: nat) {
    exists k :: 0 <= k < |t.accepted| && t.accepted[k].generation == generation
  }

  ghost predicate AcceptedBy(t: Tables, generation: nat, i: Initiation) {
    exists k :: 0 <= k < |t.accepted| && t.accepted[k].generation == generation && t.accepted[k].what == i
  }

  lemma RefusalsAreExplained(t: Tables, i: Initiation)
    requires Explained(t) && Guarded(t) && i.kemId in t.kem && t.kem[i.kemId].record.Some?
    ensures t.kem[i.kemId].lastResort ==>
              && (!Accepts(t, i) ==> AcceptedBefore(t, i))
              && (AcceptedBy(t, GenerationOf(t, i.kemId), i) ==> !Accepts(t, i))
    ensures !t.kem[i.kemId].lastResort ==> (Accepts(t, i) <==> !GenerationUsed(t, GenerationOf(t, i.kemId)))
  {
    forall k | 0 <= k < |t.accepted| ensures Recorded(t, t.accepted[k]) {}
  }

  /** Main result, the other half: in a run that only stores under free ids, a readable live key is
      refused only because of a handshake that was accepted: its own, for a one-time key; one with
      the same three values, for a last-resort key. And one accepted by this very key is refused. */
  lemma RefusedOnlyIfAcceptedBefore(steps: seq<Step>, i: Initiation)
    requires FreshStores(EMPTY, steps)
    requires i.kemId in Run(EMPTY, steps).kem && Run(EMPTY, steps).kem[i.kemId].record.Some?
    ensures Run(EMPTY, steps).kem[i.kemId].lastResort ==>
              && (!Accepts(Run(EMPTY, steps), i) ==> AcceptedBefore(Run(EMPTY, steps), i))
              && (AcceptedBy(Run(EMPTY, steps), GenerationOf(Run(EMPTY, steps), i.kemId), i) ==>
                    !Accepts(Run(EMPTY, steps), i))
    ensures !Run(EMPTY, steps).kem[i.kemId].lastResort ==>
              (Accepts(Run(EMPTY, steps), i) <==>
                 !GenerationUsed(Run(EMPTY, steps), GenerationOf(Run(EMPTY, steps), i.kemId)))
  {
    hide Guarded, Explained, Accepts;
    EmptyIsSound();
    RunKeepsExplained(EMPTY, steps);
    RunKeepsGuarded(EMPTY, steps);
    RefusalsAreExplained(Run(EMPTY, steps), i);
  }

  lemma EmptyIsSound()
    ensures Guarded(EMPTY) && Explained(EMPTY)
  {
  }

  /** Dropping the orphaned replay tuples changes no verdict: the key lookup already refuses. */
  lemma PruningOrphansChangesNoVerdict(t: Tables, i: Initiation)
    ensures Accepts(Apply(t, PruneOrphans), i) == Accepts(t, i)
    ensures i.kemId in t.kem ==> (i in Apply(t, PruneOrphans).replay <==> i in t.replay)
  {
  }

  lemma RunGoesOn(steps: seq<Step>, step: Step, before: Tables, after: Tables)
    requires Run(EMPTY, steps) == before && Apply(before, step) == after
    ensures Run(EMPTY, steps + [step]) == after
  {
    RunOneMore(EMPTY, steps, step);
  }

  lemma OneLastResortHandshake(i: Initiation, row: KemRow, replay: set<Initiation>, g: nat, next: nat, log: seq<Accepted>)
    requires row.record.Some? && row.lastResort && i !in replay
    ensures Apply(Tables(map[i.kemId := row], replay, map[i.kemId := g], next, log), Handshake(i))
              == Tables(map[i.kemId := row], replay + {i}, map[i.kemId := g], next, log + [Accepted(i, g, true)])
  {
  }

  /** The three values alone are not protected for ever: once the key is deleted, its tuple pruned
      and the id taken by another last-resort key, the same three values are accepted again. By
      `NoReplayInAnyRun` that takes a new generation, as it does here. */
  lemma SameTupleMayRecurUnderAReusedId(record: KemRecord, baseKey: Bytes)
    ensures var i := Initiation(1, 1, baseKey);
            var key := Store(1, Some(record), true);
            var t := Run(EMPTY, [key, Handshake(i), Delete(1), PruneOrphans, key, Handshake(i)]);
            t.accepted == [Accepted(i, 0, true), Accepted(i, 1, true)]
  {
    hide Run;
    var i := Initiation(1, 1, baseKey);
    var key := Store(1, Some(record), true);
    var row := KemRow(Some(record), true, false);
    var first := [Accepted(i, 0, true)];
    EmptyRun();
    RunGoesOn([], key, EMPTY, Tables(map[1 := row], {}, map[1 := 0], 1, []));
    OneLastResortHandshake(i, row, {}, 0, 1, []);
    assert [] + first == first && {} + {i} == {i};
    RunGoesOn([] + [key], Handshake(i), Tables(map[1 := row], {}, map[1 := 0], 1, []),
              Tables(map[1 := row], {i}, map[1 := 0], 1, first));
    var s2 := [] + [key] + [Handshake(i)];
    RunGoesOn(s2, Delete(1), Tables(map[1 := row], {i}, map[1 := 0], 1, first), Tables(map[], {i}, map[], 1, first));
    var s3 := s2 + [Delete(1)];
    RunGoesOn(s3, PruneOrphans, Tables(map[], {i}, map[], 1, first), Tables(map[], {}, map[], 1, first));
    var s4 := s3 + [PruneOrphans];
    RunGoesOn(s4, key, Tables(map[], {}, map[], 1, first), Tables(map[1 := row], {}, map[1 := 1], 2, first));
    OneLastResortHandshake(i, row, {}, 1, 2, first);
    RunGoesOn(s4 + [key], Handshake(i), Tables(map[1 := row], {}, map[1 := 1], 2, first),
              Tables(map[1 := row], {i}, map[1 := 1], 2, first + [Accepted(i, 1, true)]));
    assert [key, Handshake(i), Delete(1), PruneOrphans, key, Handshake(i)] == s4 + [key] + [Handshake(i)];
  }

  lemma EmptyRun()
    ensures Run(EMPTY, []) == EMPTY
  {
  }
}
