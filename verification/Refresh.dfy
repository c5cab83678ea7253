/**
  The debounced list refresh: two shared flags, any number of callers and of timer tasks, one step each
  at a time. The flags are taken as sequentially consistent.
 */
module Refresh {

  /** Where a call is. One that wants the open chat refreshed first sets that flag. */
  datatype Phase = Begun | Marked | Done

  /** `listCovered`: the lists were reloaded at some time after the call began; `openCovered`: the open
      chat was. */
  datatype Call = Call(wantsOpen: bool, phase: Phase, listCovered: bool, openCovered: bool)

  datatype Timer = Sleeping | Cleared | Taken(openToo: bool)

  datatype State = State(pending: bool, openToo: bool, calls: map<nat, Call>, timers: map<nat, Timer>, nextTimer: nat)

  datatype Step =
    | Begin(call: nat, wantsOpen: bool)
    | Mark(call: nat)          // set the flag for the open chat
    | Swap(call: nat)          // set the pending flag; spawn a timer if it was not set
    | Clear(timer: nat)        // after its delay, clear the pending flag
    | Take(timer: nat)         // read and clear the flag for the open chat
    | Emit(timer: nat)

  const START: State := State(false, false, map[], map[], 0)

  predicate ReadyToSwap(c: Call) {
    if c.wantsOpen then c.phase == Marked else c.phase == Begun
  }

  function Covered(c: Call, openToo: bool): Call {
    c.(listCovered := true, openCovered := c.openCovered || openToo)
  }

  /** A step that is not the next one of its call or timer does nothing. */
  function Apply(s: State, step: Step): State {
    match step
    case Begin(call, wantsOpen) =>
      if call in s.calls then s else s.(calls := s.calls[call := Call(wantsOpen, Begun, false, false)])
    case Mark(call) =>
      if call in s.calls && s.calls[call].wantsOpen && s.calls[call].phase == Begun then
        s.(openToo := true, calls := s.calls[call := s.calls[call].(phase := Marked)])
      else s
    case Swap(call) =>
      if call in s.calls && ReadyToSwap(s.calls[call]) then
        var done := s.(calls := s.calls[call := s.calls[call].(phase := Done)]);
        if s.pending then done
        else done.(pending := true, timers := s.timers[s.nextTimer := Sleeping], nextTimer := s.nextTimer + 1)
      else s
    case Clear(timer) =>
      if timer in s.timers && s.timers[timer] == Sleeping then
        s.(pending := false, timers := s.timers[timer := Cleared])
      else s
    case Take(timer) =>
      if timer in s.timers && s.timers[timer] == Cleared then
        s.(openToo := false, timers := s.timers[timer := Taken(s.openToo)])
      else s
    case Emit(timer) =>
      if timer in s.timers && s.timers[timer].Taken? then
        s.(calls := map c | c in s.calls :: Covered(s.calls[c], s.timers[timer].openToo), timers := s.timers - {timer})
      else s
  }

  function Run(steps: seq<Step>): State {
    if steps == [] then START else Apply(Run(steps[..|steps| - 1]), steps[|steps| - 1])
  }

  // ---- what holds in every state -----------------------------------------

  predicate SomeSleeping(s: State) {
    exists t :: t in s.timers && s.timers[t] == Sleeping
  }

  /** The pending flag is set exactly while one timer has not cleared it; there is never a second. */
  predicate PendingIsOneTimer(s: State) {
    && (s.pending <==> SomeSleeping(s))
    && (forall t, u :: t in s.timers && u in s.timers && s.timers[t] == Sleeping && s.timers[u] == Sleeping ==> t == u)
  }

  predicate WillTake(s: State) {
    exists t :: t in s.timers && !s.timers[t].Taken?
  }

  predicate SomeoneBetween(s: State) {
    exists c :: c in s.calls && s.calls[c].phase == Marked
  }

  predicate WillRefreshOpen(s: State) {
    exists t :: t in s.timers && s.timers[t] == Taken(true)
  }

  /** What is still owed to a call is on its way. */
  predicate Served(s: State, c: Call) {
    && (c.phase == Done && !c.listCovered ==> s.timers.Keys != {})
    && (c.wantsOpen && c.phase != Begun && !c.openCovered ==> s.openToo || WillRefreshOpen(s))
    && (c.phase == Marked ==> c.wantsOpen)
  }

  predicate Sound(s: State) {
    && PendingIsOneTimer(s)
    && (s.openToo ==> WillTake(s) || SomeoneBetween(s))
    && (forall c :: c in s.calls ==> Served(s, s.calls[c]))
    && (forall t :: t in s.timers ==> t < s.nextTimer)
  }

  lemma SwapKeepsSound(s: State, call: nat)
    requires Sound(s) && call in s.calls && ReadyToSwap(s.calls[call])
    ensures Sound(Apply(s, Swap(call)))
  {
    var u := Apply(s, Swap(call));
    assert Served(s, s.calls[call]);
    if !s.pending {
      assert u.timers[s.nextTimer] == Sleeping;
    }
    forall t | t in s.timers ensures t in u.timers && u.timers[t] == s.timers[t] {}
    assert SomeSleeping(u) by {
      if s.pending {
        var t :| t in s.timers && s.timers[t] == Sleeping;
        assert u.timers[t] == Sleeping;
      }
    }
    var sleeping :| sleeping in u.timers && u.timers[sleeping] == Sleeping;
    forall c | c in u.calls ensures Served(u, u.calls[c]) {
      assert Served(s, s.calls[c]);
      if WillRefreshOpen(s) {
        var t :| t in s.timers && s.timers[t] == Taken(true);
        assert u.timers[t] == Taken(true);
      }
    }
  }

  lemma EmitKeepsSound(s: State, timer: nat)
    requires Sound(s) && timer in s.timers && s.timers[timer].Taken?
    ensures Sound(Apply(s, Emit(timer)))
  {
    var u := Apply(s, Emit(timer));
    forall t | t in s.timers && t != timer ensures t in u.timers && u.timers[t] == s.timers[t] {}
    assert SomeSleeping(s) <==> SomeSleeping(u) by {
      if SomeSleeping(s) {
        var t :| t in s.timers && s.timers[t] == Sleeping;
        assert u.timers[t] == Sleeping;
      }
    }
    if u.openToo {
      if WillTake(s) {
        var t :| t in s.timers && !s.timers[t].Taken?;
        assert !u.timers[t].Taken?;
      } else {
        var c :| c in s.calls && s.calls[c].phase == Marked;
        assert u.calls[c].phase == Marked;
      }
    }
    forall c | c in u.calls ensures Served(u, u.calls[c]) {
      assert Served(s, s.calls[c]);
      if WillRefreshOpen(s) && !s.timers[timer].openToo {
        var t :| t in s.timers && s.timers[t] == Taken(true);
        assert u.timers[t] == Taken(true);
      }
    }
  }

  lemma TimerStepKeepsSound(s: State, timer: nat, step: Step)
    requires Sound(s) && timer in s.timers
    requires (step == Clear(timer) && s.timers[timer] == Sleeping) || (step == Take(timer) && s.timers[timer] == Cleared)
    ensures Sound(Apply(s, step))
  {
    var u := Apply(s, step);
    forall t | t in s.timers && t != timer ensures t in u.timers && u.timers[t] == s.timers[t] {}
    assert PendingIsOneTimer(u) by {
      if SomeSleeping(s) && step.Take? {
        var t :| t in s.timers && s.timers[t] == Sleeping;
        assert u.timers[t] == Sleeping;
      }
    }
    if step.Clear? {
      assert !u.timers[timer].Taken?;
    } else if s.openToo {
      assert u.timers[timer] == Taken(true);
    }
    forall c | c in u.calls ensures Served(u, u.calls[c]) {
      assert Served(s, s.calls[c]);
      assert timer in u.timers.Keys;
      if WillRefreshOpen(s) {
        var t :| t in s.timers && s.timers[t] == Taken(true);
        assert u.timers[t] == Taken(true);
      }
    }
  }

  lemma CallStepKeepsSound(s: State, step: Step)
    requires Sound(s) && (step.Begin? || step.Mark?)
    ensures Sound(Apply(s, step))
  {
    var u := Apply(s, step);
    assert u.timers == s.timers;
    if step.Mark? && u != s {
      assert u.calls[step.call].phase == Marked;
    } else if SomeoneBetween(s) {
      var c :| c in s.calls && s.calls[c].phase == Marked;
      assert u.calls[c].phase == Marked;
    }
    forall c | c in u.calls ensures Served(u, u.calls[c]) {
      if c in s.calls {
        assert Served(s, s.calls[c]);
      }
    }
  }

  lemma StepKeepsSound(s: State, step: Step)
    requires Sound(s)
    ensures Sound(Apply(s, step))
  {
    if Apply(s, step) != s {
      match step
      case Begin(_, _) => CallStepKeepsSound(s, step);
      case Mark(_) => CallStepKeepsSound(s, step);
      case Swap(call) => SwapKeepsSound(s, call);
      case Clear(timer) => TimerStepKeepsSound(s, timer, step);
      case Take(timer) => TimerStepKeepsSound(s, timer, step);
      case Emit(timer) => EmitKeepsSound(s, timer);
    }
  }

  /** Main result: in every run, with any number of callers and timers interleaved, the pending flag is
      set exactly while one timer has not cleared it; the other flag being set means that a timer will
      still take it, or that a caller is between its two writes; and whatever is owed to a call has a
      timer that will see to it. */
  lemma {:induction false} EveryRunIsSound(steps: seq<Step>)
    ensures Sound(Run(steps))
  {
    hide Sound, Apply;
    if steps == [] {
      StartIsSound();
    } else {
      EveryRunIsSound(steps[..|steps| - 1]);
      StepKeepsSound(Run(steps[..|steps| - 1]), steps[|steps| - 1]);
    }
  }

  lemma StartIsSound()
    ensures Sound(START)
  {
  }

  /** Nothing is under way: every call has returned and every timer has finished. */
  predicate Quiet(s: State) {
    s.timers.Keys == {} && forall c :: c in s.calls ==> s.calls[c].phase == Done
  }

  /** Main result: no refresh is lost. Once everything has come to rest, the lists were reloaded after
      each call began, and the open chat as well after each call that wanted it. Both flags are clear. */
  lemma NoRefreshIsLost(steps: seq<Step>)
    requires Quiet(Run(steps))
    ensures var s := Run(steps);
            && !s.pending && !s.openToo
            && forall c :: c in s.calls ==> s.calls[c].listCovered && (s.calls[c].wantsOpen ==> s.calls[c].openCovered)
  {
    hide Run;
    EveryRunIsSound(steps);
    var s := Run(steps);
    forall t ensures t !in s.timers {
      assert t !in s.timers.Keys;
    }
    forall c | c in s.calls ensures s.calls[c].listCovered && (s.calls[c].wantsOpen ==> s.calls[c].openCovered) {
      assert Served(s, s.calls[c]);
    }
  }

  // ---- what a call does ---------------------------------------------------

  /** A new call is owed a refresh, and when its steps are done the pending flag is set; a timer is
      spawned for it only if none is sleeping, so that calls in a burst share one. */
  lemma CallIsTaken(s: State, call: nat, wantsOpen: bool)
    requires Sound(s) && call !in s.calls
    ensures var began := Apply(s, Begin(call, wantsOpen));
            var marked := if wantsOpen then Apply(began, Mark(call)) else began;
            var swapped := Apply(marked, Swap(call));
            && call in began.calls && !began.calls[call].listCovered && !began.calls[call].openCovered
            && (wantsOpen ==> marked.openToo)
            && swapped.calls[call] == Call(wantsOpen, Done, false, false)
            && swapped.pending && SomeSleeping(swapped)
            && (if SomeSleeping(s) then swapped.timers == s.timers
                else swapped.timers.Keys == s.timers.Keys + {s.nextTimer} && swapped.timers[s.nextTimer] == Sleeping)
  {
    var began := Apply(s, Begin(call, wantsOpen));
    var marked := if wantsOpen then Apply(began, Mark(call)) else began;
    StepKeepsSound(s, Begin(call, wantsOpen));
    if wantsOpen {
      StepKeepsSound(began, Mark(call));
    }
    StepKeepsSound(marked, Swap(call));
  }

  /** A timer covers every call that began before it emits, and the open chat for all of them if a call
      had asked for it by the time the timer took the flag. */
  lemma TimerCovers(s: State, timer: nat)
    requires timer in s.timers
    ensures s.timers[timer].Cleared? ==> Apply(s, Take(timer)).timers[timer] == Taken(s.openToo)
    ensures s.timers[timer].Taken? ==>
              var u := Apply(s, Emit(timer));
              && timer !in u.timers && u.calls.Keys == s.calls.Keys
              && forall c :: c in s.calls ==>
                   && u.calls[c].listCovered
                   && (u.calls[c].openCovered <==> s.calls[c].openCovered || s.timers[timer].openToo)
  {
  }

  // ---- coming to rest ----------------------------------------------------

  function StepsLeft(t: Timer): nat {
    match t case Sleeping => 3 case Cleared => 2 case Taken(_) => 1
  }

  function NextStepOf(timer: nat, t: Timer): Step {
    match t case Sleeping => Clear(timer) case Cleared => Take(timer) case Taken(_) => Emit(timer)
  }

  /** A timer is never held up: its next step can always be taken, and brings it one step closer to its
      end, whatever the others do. */
  lemma TimersAdvance(s: State, timer: nat)
    requires timer in s.timers
    ensures var u := Apply(s, NextStepOf(timer, s.timers[timer]));
            && (forall t :: t in s.timers && t != timer ==> t in u.timers && u.timers[t] == s.timers[t])
            && (if StepsLeft(s.timers[timer]) == 1 then u.timers.Keys == s.timers.Keys - {timer}
                else u.timers.Keys == s.timers.Keys && StepsLeft(u.timers[timer]) == StepsLeft(s.timers[timer]) - 1)
            && (forall c :: c in s.calls ==> c in u.calls && u.calls[c].phase == s.calls[c].phase)
            && u.calls.Keys == s.calls.Keys
  {
  }

  lemma RunOneMore(steps: seq<Step>, step: Step)
    ensures Run(steps + [step]) == Apply(Run(steps), step)
  {
    assert (steps + [step])[..|steps|] == steps;
  }

  /** The most steps a call can still cause: its own, and the three of a timer it may spawn. */
  function CallWork(c: Call): nat {
    match c.phase
    case Begun => if c.wantsOpen then 5 else 4
    case Marked => 4
    case Done => 0
  }

  ghost function Sum(parts: map<nat, nat>): nat {
    if parts == map[] then 0
    else
      var k :| k in parts;
      parts[k] + Sum(parts - {k})
  }

  function TimerParts(s: State): map<nat, nat> {
    map t | t in s.timers :: StepsLeft(s.timers[t])
  }

  function CallParts(s: State): map<nat, nat> {
    map c | c in s.calls :: CallWork(s.calls[c])
  }

  ghost function Work(s: State): nat {
    Sum(TimerParts(s)) + Sum(CallParts(s))
  }

  /** The sum does not depend on the order in which it is taken. */
  lemma {:induction false} SumWithout(parts: map<nat, nat>, key: nat)
    requires key in parts
    ensures Sum(parts) == parts[key] + Sum(parts - {key})
    decreases |parts|
  {
    var k :| k in parts && Sum(parts) == parts[k] + Sum(parts - {k});
    if k != key {
      SumWithout(parts - {k}, key);
      SumWithout(parts - {key}, k);
      assert parts - {k} - {key} == parts - {key} - {k};
    }
  }

  lemma SumUpdated(parts: map<nat, nat>, key: nat, value: nat)
    ensures Sum(parts[key := value]) == Sum(parts - {key}) + value
  {
    SumWithout(parts[key := value], key);
    assert parts[key := value] - {key} == parts - {key};
  }

  lemma SumAdded(parts: map<nat, nat>, key: nat, value: nat)
    requires key !in parts
    ensures Sum(parts[key := value]) == Sum(parts) + value
  {
    SumUpdated(parts, key, value);
    assert parts - {key} == parts;
  }

  lemma SumChanged(parts: map<nat, nat>, key: nat, value: nat)
    requires key in parts
    ensures Sum(parts[key := value]) == Sum(parts) - parts[key] + value
  {
    SumUpdated(parts, key, value);
    SumWithout(parts, key);
  }

  lemma CallStepDoesWork(s: State, step: Step)
    requires (step.Mark? || step.Swap?) && Apply(s, step) != s
    requires forall t :: t in s.timers ==> t < s.nextTimer
    ensures Work(Apply(s, step)) < Work(s)
  {
    hide Sum;
    var u := Apply(s, step);
    var c := step.call;
    SumChanged(CallParts(s), c, CallWork(u.calls[c]));
    assert CallParts(u) == CallParts(s)[c := CallWork(u.calls[c])];
    if u.timers == s.timers {
      assert TimerParts(u) == TimerParts(s);
    } else {
      SumAdded(TimerParts(s), s.nextTimer, 3);
      assert TimerParts(u) == TimerParts(s)[s.nextTimer := 3];
    }
  }

  lemma TimerStepDoesWork(s: State, step: Step)
    requires (step.Clear? || step.Take? || step.Emit?) && Apply(s, step) != s
    ensures Work(Apply(s, step)) < Work(s)
  {
    hide Sum;
    var u := Apply(s, step);
    var t := step.timer;
    assert CallParts(u) == CallParts(s);
    if step.Emit? {
      SumWithout(TimerParts(s), t);
      assert TimerParts(u) == TimerParts(s) - {t};
    } else {
      SumChanged(TimerParts(s), t, StepsLeft(u.timers[t]));
      assert TimerParts(u) == TimerParts(s)[t := StepsLeft(u.timers[t])];
    }
  }

  /** Every step of `more` does something, and none of them is a new call. */
  ghost predicate Continues(steps: seq<Step>, more: seq<Step>) {
    forall k :: 0 <= k < |more| ==> !more[k].Begin? && Apply(Run(steps + more[..k]), more[k]) != Run(steps + more[..k])
  }

  /** Something can still be done without a new call. */
  ghost predicate CanContinue(s: State) {
    exists step: Step :: !step.Begin? && Apply(s, step) != s
  }

  lemma {:induction false} WorkBoundsSteps(steps: seq<Step>, more: seq<Step>)
    requires Continues(steps, more)
    ensures Work(Run(steps + more)) + |more| <= Work(Run(steps))
    decreases |more|
  {
    hide Run, Apply, Work, Sound;
    if more == [] {
      assert steps + more == steps;
    } else {
      var k := |more| - 1;
      var front := more[..k];
      assert forall i :: 0 <= i < k ==> front[..i] == more[..i];
      WorkBoundsSteps(steps, front);
      assert steps + more == steps + front + [more[k]];
      RunOneMore(steps + front, more[k]);
      EveryRunIsSound(steps + front);
      StepDoesWork(Run(steps + front), more[k]);
    }
  }

  lemma StepDoesWork(s: State, step: Step)
    requires Sound(s) && !step.Begin? && Apply(s, step) != s
    ensures Work(Apply(s, step)) < Work(s)
  {
    hide Apply, Work;
    if step.Mark? || step.Swap? {
      CallStepDoesWork(s, step);
    } else {
      TimerStepDoesWork(s, step);
    }
  }

  lemma QuietIffNothingToDo(s: State)
    requires Sound(s)
    ensures Quiet(s) <==> !CanContinue(s)
  {
    if timer :| timer in s.timers {
      assert timer in s.timers.Keys;
      TimersAdvance(s, timer);
      assert Apply(s, NextStepOf(timer, s.timers[timer])) != s;
    } else if c :| c in s.calls && s.calls[c].phase != Done {
      assert Served(s, s.calls[c]);
      var step := if ReadyToSwap(s.calls[c]) then Swap(c) else Mark(c);
      var u := Apply(s, step);
      assert u.calls[c].phase != s.calls[c].phase;
      assert u != s;
    }
  }

  /** Main result: without new calls, whatever order the steps under way are taken in, there are at most
      three for each timer and five for each call that has not returned; and a run can go on without new
      calls until everything is at rest, and no longer. */
  lemma EveryRunComesToRest(steps: seq<Step>, more: seq<Step>)
    requires Continues(steps, more)
    ensures |more| <= Work(Run(steps))
    ensures Quiet(Run(steps + more)) <==> !CanContinue(Run(steps + more))
  {
    hide Run, Work, Sound, Quiet;
    WorkBoundsSteps(steps, more);
    EveryRunIsSound(steps + more);
    QuietIffNothingToDo(Run(steps + more));
  }
}
