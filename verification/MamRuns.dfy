/**
  Paging that interleaves. Every operation is a task of its own and gives way to others while it waits
  for a reply and while it stores one, and the archive grows at any time. The cursor is shared.
 */
module MamRuns {
  import opened Wrappers
  import opened MamArchive

  /** Where a page backwards starts: at the stored oldest id, at an id the caller gave, or at the end of
      the archive while nothing is stored. */
  datatype Origin = Oldest | Explicit | Latest

  datatype Task =
    | Backward(cursor: Option<nat>, origin: Origin)   // asked
    | BackwardPage(page: Page, origin: Origin)        // has its reply, the ids are not stored yet
    | Forward(after: nat, pages: nat)
    | ForwardPage(after: nat, pages: nat, page: Page)

  datatype State = State(length: nat, delivered: set<nat>, cursor: Cursor, tasks: map<nat, Task>)

  datatype Step =
    | Arrive                                          // the archive gets another entry
    | LoadPage(task: nat, before: Option<nat>)
    | CatchUp(task: nat)
    | Reply(task: nat, size: nat)
    | Store(task: nat)
    | Fail(task: nat)

  const START: State := State(0, {}, Cursor(None, None, false), map[])

  function Replied(s: State, task: nat, page: Page, t: Task): State {
    s.(delivered := s.delivered + Entries(page), tasks := s.tasks[task := t])
  }

  /** Storing the last id of a forward page; the loop ends with the page that says so, with an empty
      one, or after a hundred. */
  function Stored(s: State, task: nat, pages: nat, page: Page): State {
    if page.last.None? then s.(tasks := s.tasks - {task})
    else
      s.(cursor := SetCursor(s.cursor, None, page.last, page.complete),
         tasks := if page.complete || pages + 1 >= CONVERSATION_PAGES then s.tasks - {task}
                  else s.tasks[task := Forward(page.last.value, pages + 1)])
  }

  function FromOldest(c: Cursor): Task {
    Backward(c.first, if c.first.Some? then Oldest else Latest)
  }

  function Apply(s: State, step: Step): State {
    match step
    case Arrive => s.(length := s.length + 1)
    case LoadPage(task, before) =>
      if task in s.tasks then s
      else
        s.(tasks := s.tasks[task := if before.Some? then Backward(before, Explicit) else FromOldest(s.cursor)])
    case CatchUp(task) =>
      if task in s.tasks then s
      else
        s.(tasks := s.tasks[task := if s.cursor.last.Some? then Forward(s.cursor.last.value, 0)
                                    else FromOldest(s.cursor)])
    case Reply(task, size) =>
      if task !in s.tasks then s
      else (
        match s.tasks[task]
        case Backward(cursor, origin) =>
          var page := PageBefore(s.length, cursor, size);
          Replied(s, task, page, BackwardPage(page, origin))
        case Forward(after, pages) =>
          var page := PageAfter(s.length, after, size);
          Replied(s, task, page, ForwardPage(after, pages, page))
        case _ => s)
    case Store(task) =>
      if task !in s.tasks then s
      else (
        match s.tasks[task]
        case BackwardPage(page, _) =>
          s.(cursor := SetCursor(s.cursor, page.first, page.last, page.complete), tasks := s.tasks - {task})
        case ForwardPage(_, pages, page) => Stored(s, task, pages, page)
        case _ => s)
    case Fail(task) => s.(tasks := s.tasks - {task})
  }

  function Run(s: State, steps: seq<Step>): State {
    if steps == [] then s else Apply(Run(s, steps[..|steps| - 1]), steps[|steps| - 1])
  }

  lemma RunOneMore(s: State, steps: seq<Step>, step: Step)
    ensures Run(s, steps + [step]) == Apply(Run(s, steps), step)
  {
    assert (steps + [step])[..|steps|] == steps;
  }

  // ---- the stretch the cursor moves in -----------------------------------

  /** The stretch of delivered entries that every stored id, and every id a task goes on from, is in.
      It is history that the client does not keep. */
  type Stretch = Option<(nat, nat)>

  function Join(h: Stretch, p: Page): Stretch
    requires h.Some? && p.first.Some? && p.last.Some?
  {
    var (lo, hi) := h.value;
    Some((Min(lo, p.first.value), if p.last.value < hi then hi else p.last.value))
  }

  /** A page that leaves no gap to the stretch. */
  predicate Touches(h: Stretch, p: Page) {
    h.Some? && p.first.Some? && p.last.Some? ==>
      p.first.value <= h.value.1 + 1 && h.value.0 <= p.last.value + 1
  }

  /** The stretch after a page is stored. */
  function Extended(h: Stretch, p: Page): Stretch {
    if p.first.None? || p.last.None? then h
    else if h.None? || !Touches(h, p) then Some((p.first.value, p.last.value))
    else Join(h, p)
  }

  function NextStretch(s: State, h: Stretch, step: Step): Stretch {
    if step.Store? && step.task in s.tasks then
      match s.tasks[step.task]
      case BackwardPage(page, _) => Extended(h, page)
      case ForwardPage(_, _, page) => Extended(h, page)
      case _ => h
    else h
  }

  function StretchOf(steps: seq<Step>): Stretch {
    if steps == [] then None
    else NextStretch(Run(START, steps[..|steps| - 1]), StretchOf(steps[..|steps| - 1]), steps[|steps| - 1])
  }

  /** A step that does no harm to the stretch: a page that was not asked for from the stored oldest id
      is stored only if it leaves no gap, or while no other task is under way. The rules below are what
      a caller can see to; they make every step careful. */
  predicate Careful(s: State, h: Stretch, step: Step) {
    step.Store? && step.task in s.tasks && s.tasks[step.task].BackwardPage? && s.tasks[step.task].origin != Oldest ==>
      h.None? || Touches(h, s.tasks[step.task].page) || s.tasks.Keys == {step.task}
  }

  ghost predicate CarefulRun(steps: seq<Step>) {
    forall k :: 0 <= k < |steps| ==> Careful(Run(START, steps[..k]), StretchOf(steps[..k]), steps[k])
  }

  predicate Within(h: Stretch, id: nat) {
    h.Some? && h.value.0 <= id <= h.value.1
  }

  ghost predicate PageIsDelivered(s: State, p: Page) {
    && p.first.Some? == p.last.Some?
    && (p.first.Some? ==> p.first.value <= p.last.value < p.seen && p.seen <= s.length
                          && Gapless(s.delivered, p.first.value, p.last.value + 1))
  }

  ghost predicate TaskIsSound(s: State, h: Stretch, t: Task) {
    match t
    case Backward(cursor, origin) => origin == Oldest ==> cursor.Some? && Within(h, cursor.value)
    case BackwardPage(page, origin) => PageIsDelivered(s, page) && (origin == Oldest ==> h.Some? && Touches(h, page))
    case Forward(after, _) => Within(h, after)
    case ForwardPage(after, _, page) =>
      Within(h, after) && PageIsDelivered(s, page)
      && (page.first.Some? ==> page.first.value == after + 1)
      && (page.complete && page.last.Some? ==> page.last.value + 1 == page.seen)
      && (page.first.None? ==> page.seen <= after + 1)
  }

  ghost predicate Sound(s: State, h: Stretch) {
    && (h.Some? ==> h.value.0 <= h.value.1 < s.length && Gapless(s.delivered, h.value.0, h.value.1 + 1))
    && (s.cursor.first.Some? ==> Within(h, s.cursor.first.value))
    && (s.cursor.last.Some? ==> Within(h, s.cursor.last.value))
    && (forall id :: id in s.tasks ==> TaskIsSound(s, h, s.tasks[id]))
  }

  lemma ExtendedCovers(s: State, h: Stretch, p: Page)
    requires h.Some? ==> h.value.0 <= h.value.1 < s.length && Gapless(s.delivered, h.value.0, h.value.1 + 1)
    requires PageIsDelivered(s, p) && (h.None? || Touches(h, p))
    ensures var h' := Extended(h, p);
            && (h'.Some? ==> h'.value.0 <= h'.value.1 < s.length && Gapless(s.delivered, h'.value.0, h'.value.1 + 1))
            && (forall id :: Within(h, id) ==> Within(h', id))
            && (forall q :: h.Some? && Touches(h, q) ==> Touches(h', q))
            && (p.first.Some? ==> Within(h', p.first.value) && Within(h', p.last.value))
  {
  }

  lemma SoundTaskStays(s: State, h: Stretch, s': State, h': Stretch, t: Task)
    requires TaskIsSound(s, h, t)
    requires s.delivered <= s'.delivered && s.length <= s'.length
    requires forall id :: Within(h, id) ==> Within(h', id)
    requires h.Some? ==> h'.Some?
    requires forall q :: h.Some? && Touches(h, q) ==> Touches(h', q)
    ensures TaskIsSound(s', h', t)
  {
  }

  /** With no other task under way, a page can take the place of the stretch. */
  lemma StoreAlone(s: State, h: Stretch, task: nat)
    requires Sound(s, h) && s.tasks.Keys == {task} && s.tasks[task].BackwardPage?
    ensures Sound(Apply(s, Store(task)), NextStretch(s, h, Store(task)))
  {
    assert TaskIsSound(s, h, s.tasks[task]);
    var s' := Apply(s, Store(task));
    assert s'.tasks.Keys == {};
  }

  lemma StoreTouching(s: State, h: Stretch, task: nat)
    requires Sound(s, h) && task in s.tasks && (s.tasks[task].BackwardPage? || s.tasks[task].ForwardPage?)
    requires h.None? || Touches(h, s.tasks[task].page)
    ensures Sound(Apply(s, Store(task)), NextStretch(s, h, Store(task)))
  {
    var page := s.tasks[task].page;
    assert TaskIsSound(s, h, s.tasks[task]);
    var s', h' := Apply(s, Store(task)), NextStretch(s, h, Store(task));
    ExtendedCovers(s, h, page);
    forall id | id in s'.tasks ensures TaskIsSound(s', h', s'.tasks[id]) {
      if id != task {
        assert TaskIsSound(s, h, s.tasks[id]);
        SoundTaskStays(s, h, s', h', s.tasks[id]);
      }
    }
  }

  lemma ReplyKeepsSound(s: State, h: Stretch, task: nat, size: nat)
    requires Sound(s, h)
    ensures Sound(Apply(s, Reply(task, size)), h)
  {
    var s' := Apply(s, Reply(task, size));
    forall id | id in s'.tasks ensures TaskIsSound(s', h, s'.tasks[id]) {
      assert TaskIsSound(s, h, s.tasks[id]);
      if id != task {
        SoundTaskStays(s, h, s', h, s.tasks[id]);
      } else {
        ReplyIsSound(s, h, s', s.tasks[id], size);
      }
    }
  }

  lemma ReplyIsSound(s: State, h: Stretch, s': State, t: Task, size: nat)
    requires TaskIsSound(s, h, t) && s'.length == s.length
    requires h.Some? ==> h.value.0 <= h.value.1 < s.length
    ensures match t
            case Backward(cursor, origin) =>
              var page := PageBefore(s.length, cursor, size);
              s'.delivered >= Entries(page) ==> TaskIsSound(s', h, BackwardPage(page, origin))
            case Forward(after, pages) =>
              var page := PageAfter(s.length, after, size);
              s'.delivered >= Entries(page) ==> TaskIsSound(s', h, ForwardPage(after, pages, page))
            case _ => s'.delivered >= s.delivered ==> TaskIsSound(s', h, t)
  {
  }

  lemma StepKeepsSound(s: State, h: Stretch, step: Step)
    requires Sound(s, h) && Careful(s, h, step)
    ensures Sound(Apply(s, step), NextStretch(s, h, step))
  {
    match step
    case Store(task) =>
      if task in s.tasks && (s.tasks[task].BackwardPage? || s.tasks[task].ForwardPage?) {
        assert TaskIsSound(s, h, s.tasks[task]);
        if h.None? || Touches(h, s.tasks[task].page) {
          StoreTouching(s, h, task);
        } else {
          StoreAlone(s, h, task);
        }
      }
    case Reply(task, size) => ReplyKeepsSound(s, h, task, size);
    case _ =>
      var s' := Apply(s, step);
      forall id | id in s'.tasks ensures TaskIsSound(s', h, s'.tasks[id]) {
        if id in s.tasks {
          SoundTaskStays(s, h, s', h, s.tasks[id]);
        }
      }
  }

  lemma {:induction false} RunKeepsSound(steps: seq<Step>)
    requires CarefulRun(steps)
    ensures Sound(Run(START, steps), StretchOf(steps))
  {
    if steps != [] {
      var k := |steps| - 1;
      forall i | 0 <= i < k
        ensures Careful(Run(START, steps[..k][..i]), StretchOf(steps[..k][..i]), steps[..k][i])
      {
        assert steps[..k][..i] == steps[..i];
      }
      RunKeepsSound(steps[..k]);
      StepKeepsSound(Run(START, steps[..k]), StretchOf(steps[..k]), steps[k]);
    }
  }

  lemma SoundMeansCovered(s: State, h: Stretch)
    requires Sound(s, h)
    ensures Covered(s.delivered, s.cursor)
    ensures forall id :: id in s.tasks && s.tasks[id].Forward? && s.cursor.first.Some? ==>
              Gapless(s.delivered, s.cursor.first.value, s.tasks[id].after + 1)
  {
    forall id | id in s.tasks && s.tasks[id].Forward? && s.cursor.first.Some?
      ensures Gapless(s.delivered, s.cursor.first.value, s.tasks[id].after + 1)
    {
      assert TaskIsSound(s, h, s.tasks[id]);
    }
  }

  // ---- what a caller can see to ------------------------------------------

  /** A rule about starting an operation, looked at when it starts. */
  type Rule = (State, Step) -> bool

  ghost predicate Keeps(rule: Rule, s: State, steps: seq<Step>) {
    forall k :: 0 <= k < |steps| ==> rule(Run(s, steps[..k]), steps[k])
  }

  predicate StartsTask(s: State, step: Step) {
    (step.LoadPage? || step.CatchUp?) && step.task !in s.tasks
  }

  predicate IsExplicit(t: Task) {
    (t.Backward? || t.BackwardPage?) && t.origin == Explicit
  }

  /** While nothing is stored, an operation starts only if no other is under way. */
  predicate FirstAlone(s: State, step: Step) {
    StartsTask(s, step) && s.cursor.first.None? ==> s.tasks == map[]
  }

  /** An id is given explicitly only if no operation is under way. */
  predicate ExplicitAlone(s: State, step: Step) {
    StartsTask(s, step) && step.LoadPage? && step.before.Some? ==> s.tasks == map[]
  }

  /** Nothing starts while an operation with an explicit id is under way. */
  predicate NothingDuringExplicit(s: State, step: Step) {
    StartsTask(s, step) ==> forall id :: id in s.tasks ==> !IsExplicit(s.tasks[id])
  }

  ghost predicate WellStarted(steps: seq<Step>) {
    Keeps(FirstAlone, START, steps) && Keeps(ExplicitAlone, START, steps) && Keeps(NothingDuringExplicit, START, steps)
  }

  predicate Uncoordinated(t: Task) {
    (t.Backward? || t.BackwardPage?) && t.origin != Oldest
  }

  /** A load that does not go on from the stored oldest id is the only task, and one of the latest page
      finds nothing stored. */
  ghost predicate Disciplined(s: State) {
    forall id :: id in s.tasks && Uncoordinated(s.tasks[id]) ==>
      s.tasks.Keys == {id} && (s.tasks[id].origin == Latest ==> s.cursor.first.None?)
  }

  /** When an operation starts, every other one goes on from stored ids. */
  lemma StartMeetsCoordinated(s: State, step: Step)
    requires Disciplined(s) && FirstAlone(s, step) && NothingDuringExplicit(s, step) && StartsTask(s, step)
    ensures forall id :: id in s.tasks ==> !Uncoordinated(s.tasks[id])
  {
  }

  lemma StepKeepsDisciplined(s: State, step: Step)
    requires Disciplined(s) && FirstAlone(s, step) && ExplicitAlone(s, step) && NothingDuringExplicit(s, step)
    ensures Disciplined(Apply(s, step))
  {
    if StartsTask(s, step) {
      StartMeetsCoordinated(s, step);
      StartKeepsDisciplined(s, step);
    } else {
      var u := Apply(s, step);
      forall id | id in u.tasks && Uncoordinated(u.tasks[id])
        ensures u.tasks.Keys == {id} && (u.tasks[id].origin == Latest ==> u.cursor.first.None?)
      {
        assert id in s.tasks && Uncoordinated(s.tasks[id]);
      }
    }
  }

  lemma StartKeepsDisciplined(s: State, step: Step)
    requires FirstAlone(s, step) && ExplicitAlone(s, step) && StartsTask(s, step)
    requires forall id :: id in s.tasks ==> !Uncoordinated(s.tasks[id])
    ensures Disciplined(Apply(s, step))
  {
    var u := Apply(s, step);
    assert u.tasks == s.tasks[step.task := u.tasks[step.task]] && u.cursor == s.cursor;
  }

  lemma DisciplinedIsCareful(s: State, h: Stretch, step: Step)
    requires Disciplined(s)
    ensures Careful(s, h, step)
  {
  }

  lemma KeepsBefore(rule: Rule, s: State, steps: seq<Step>, k: nat)
    requires Keeps(rule, s, steps) && k <= |steps|
    ensures Keeps(rule, s, steps[..k])
  {
    forall i | 0 <= i < k ensures rule(Run(s, steps[..k][..i]), steps[..k][i]) {
      assert steps[..k][..i] == steps[..i];
    }
  }

  lemma {:induction false} WellStartedIsDisciplined(steps: seq<Step>)
    requires WellStarted(steps)
    ensures Disciplined(Run(START, steps))
  {
    if steps != [] {
      hide Keeps, Apply, Disciplined;
      WellStartedBefore(steps, |steps| - 1);
      WellStartedIsDisciplined(steps[..|steps| - 1]);
      LastStepKeepsTheRules(steps);
      StepKeepsDisciplined(Run(START, steps[..|steps| - 1]), steps[|steps| - 1]);
    }
  }

  lemma WellStartedBefore(steps: seq<Step>, k: nat)
    requires WellStarted(steps) && k <= |steps|
    ensures WellStarted(steps[..k])
  {
    hide Keeps;
    KeepsBefore(FirstAlone, START, steps, k);
    KeepsBefore(ExplicitAlone, START, steps, k);
    KeepsBefore(NothingDuringExplicit, START, steps, k);
  }

  lemma LastStepKeepsTheRules(steps: seq<Step>)
    requires WellStarted(steps) && steps != []
    ensures var s, step := Run(START, steps[..|steps| - 1]), steps[|steps| - 1];
            FirstAlone(s, step) && ExplicitAlone(s, step) && NothingDuringExplicit(s, step)
  {
    hide Run;
  }

  lemma WellStartedIsCareful(steps: seq<Step>)
    requires WellStarted(steps)
    ensures CarefulRun(steps)
  {
    hide Run, StretchOf, Careful, Disciplined, WellStarted;
    forall k | 0 <= k < |steps| ensures Careful(Run(START, steps[..k]), StretchOf(steps[..k]), steps[k]) {
      WellStartedBefore(steps, k);
      WellStartedIsDisciplined(steps[..k]);
      DisciplinedIsCareful(Run(START, steps[..k]), StretchOf(steps[..k]), steps[k]);
    }
  }

  /** Main result: in every run whose operations start by the three rules, whatever loads, catch-ups,
      failures and arrivals interleave, nothing between the two stored ids is missing, nor between the
      oldest and any id that a catch-up will go on from, although loading older pages moves the newest
      id back. */
  lemma NothingBetweenIsMissing(steps: seq<Step>)
    requires WellStarted(steps)
    ensures var s := Run(START, steps);
            && Covered(s.delivered, s.cursor)
            && forall id :: id in s.tasks && s.tasks[id].Forward? && s.cursor.first.Some? ==>
                 Gapless(s.delivered, s.cursor.first.value, s.tasks[id].after + 1)
  {
    hide Run, StretchOf, Sound, CarefulRun, WellStarted, Disciplined;
    WellStartedIsCareful(steps);
    RunKeepsSound(steps);
    SoundMeansCovered(Run(START, steps), StretchOf(steps));
  }

  lemma CompletePageStored(s: State, h: Stretch, task: nat)
    requires Sound(s, h) && task in s.tasks && s.tasks[task].ForwardPage? && s.tasks[task].page.complete
    ensures var s' := Apply(s, Store(task));
            && task !in s'.tasks
            && (s'.cursor.first.Some? ==> Gapless(s'.delivered, s'.cursor.first.value, s.tasks[task].page.seen))
  {
    assert TaskIsSound(s, h, s.tasks[task]);
  }

  /** Main result: in such a run, when a catch-up stores a page that the server calls complete,
      everything from the oldest id to the end of the archive the server saw has been delivered. */
  lemma CompleteMeansCaughtUp(steps: seq<Step>, task: nat)
    requires WellStarted(steps)
    requires var s := Run(START, steps);
             task in s.tasks && s.tasks[task].ForwardPage? && s.tasks[task].page.complete
    ensures var s := Run(START, steps);
            var s' := Run(START, steps + [Store(task)]);
            && task !in s'.tasks
            && (s'.cursor.first.Some? ==> Gapless(s'.delivered, s'.cursor.first.value, s.tasks[task].page.seen))
  {
    hide Run, StretchOf, Sound, CarefulRun, Apply, WellStarted, Disciplined;
    WellStartedIsCareful(steps);
    RunKeepsSound(steps);
    RunOneMore(START, steps, Store(task));
    CompletePageStored(Run(START, steps), StretchOf(steps), task);
  }

  /** A run in which operations never overlap keeps the rules, whatever ids are asked for. */
  lemma OneAtATimeIsWellStarted(steps: seq<Step>)
    requires forall k :: 0 <= k <= |steps| ==> |Run(START, steps[..k]).tasks.Keys| <= 1
    ensures WellStarted(steps)
  {
    forall k | 0 <= k < |steps| && StartsTask(Run(START, steps[..k]), steps[k])
      ensures Run(START, steps[..k]).tasks == map[]
    {
      var s := Run(START, steps[..k]);
      assert steps[..k + 1] == steps[..k] + [steps[k]];
      RunOneMore(START, steps[..k], steps[k]);
      StartNeedsRoom(s, steps[k]);
    }
  }

  lemma StartNeedsRoom(s: State, step: Step)
    requires StartsTask(s, step) && |Apply(s, step).tasks.Keys| <= 1
    ensures s.tasks == map[]
  {
    assert Apply(s, step).tasks.Keys == s.tasks.Keys + {step.task};
  }

  ghost predicate AllPagesLeft(s: State) {
    forall id :: id in s.tasks ==> PagesLeft(s.tasks[id])
  }

  predicate PagesLeft(t: Task) {
    (t.Forward? || t.ForwardPage?) ==> t.pages < 100
  }

  /** No catch-up goes on for more than a hundred pages: one that asks for another has stored fewer. */
  lemma {:induction false} AtMostAHundredPages(steps: seq<Step>)
    ensures AllPagesLeft(Run(START, steps))
  {
    if steps != [] {
      AtMostAHundredPages(steps[..|steps| - 1]);
      StepKeepsPagesLeft(Run(START, steps[..|steps| - 1]), steps[|steps| - 1]);
    }
  }

  lemma StepKeepsPagesLeft(s: State, step: Step)
    requires AllPagesLeft(s)
    ensures AllPagesLeft(Apply(s, step))
  {
    var u := Apply(s, step);
    forall id | id in u.tasks ensures PagesLeft(u.tasks[id]) {
      if step.Store? && id == step.task && id in s.tasks {
        assert PagesLeft(s.tasks[id]);
      }
    }
  }

  // ---- why each rule is there --------------------------------------------

  /** A run given step by step, each with the state after it. */
  type Table = nat -> (Step, State)

  function StepsOf(table: Table, n: nat): seq<Step> {
    seq(n, k requires 0 <= k => table(k).0)
  }

  function StateAt(table: Table, k: nat): State {
    if k == 0 then START else table(k - 1).1
  }

  /** Row `k` follows from the one before and keeps two rules. */
  predicate Follows(one: Rule, two: Rule, table: Table, k: nat) {
    var s, step := StateAt(table, k), table(k).0;
    Apply(s, step) == table(k).1 && one(s, step) && two(s, step)
  }

  lemma {:induction false} TableIsARun(one: Rule, two: Rule, table: Table, n: nat)
    requires forall k :: 0 <= k < n ==> Follows(one, two, table, k)
    ensures Run(START, StepsOf(table, n)) == StateAt(table, n)
    ensures Keeps(one, START, StepsOf(table, n)) && Keeps(two, START, StepsOf(table, n))
  {
    hide Apply;
    var steps := StepsOf(table, n);
    if n > 0 {
      var front := StepsOf(table, n - 1);
      TableIsARun(one, two, table, n - 1);
      assert steps[..n - 1] == front && Follows(one, two, table, n - 1);
      forall k | 0 <= k < n ensures one(Run(START, steps[..k]), steps[k]) && two(Run(START, steps[..k]), steps[k]) {
        if k < n - 1 {
          assert steps[..k] == front[..k] && steps[k] == front[k];
        }
      }
    }
  }

  /** A run that keeps two rules and ends with a gap between the stored ids. */
  ghost predicate EndsInAGap(one: Rule, two: Rule, steps: seq<Step>) {
    Keeps(one, START, steps) && Keeps(two, START, steps) && !Covered(Run(START, steps).delivered, Run(START, steps).cursor)
  }

  // Pages of one entry each, by the entry and the length of the archive.

  const ZERO_OF_ONE: Page := Page(Some(0), Some(0), true, 1)
  const ZERO_OF_THREE: Page := Page(Some(0), Some(0), true, 3)
  const ZERO_OF_FOUR: Page := Page(Some(0), Some(0), true, 4)
  const TWO_OF_THREE: Page := Page(Some(2), Some(2), false, 3)
  const THREE_OF_FOUR: Page := Page(Some(3), Some(3), true, 4)

  const UNSET: Cursor := Cursor(None, None, false)
  const AT_TWO: Cursor := Cursor(Some(2), Some(2), false)
  const AT_ZERO: Cursor := Cursor(Some(0), Some(0), true)
  const ZERO_TO_THREE: Cursor := Cursor(Some(0), Some(3), true)

  lemma OneEntryPages()
    ensures PageBefore(1, None, 1) == ZERO_OF_ONE && PageBefore(3, None, 1) == TWO_OF_THREE
    ensures PageBefore(3, Some(1), 1) == ZERO_OF_THREE && PageBefore(4, Some(1), 1) == ZERO_OF_FOUR
    ensures PageAfter(4, 2, 1) == THREE_OF_FOUR
    ensures Entries(ZERO_OF_ONE) == Entries(ZERO_OF_THREE) == Entries(ZERO_OF_FOUR) == {0}
    ensures Entries(TWO_OF_THREE) == {2} && Entries(THREE_OF_FOUR) == {3}
  {
  }

  lemma OneIsMissing(s: State)
    requires s.cursor == ZERO_TO_THREE && s.delivered == {0, 2, 3}
    ensures !Covered(s.delivered, s.cursor)
  {
    assert 1 !in s.delivered;
  }

  function ExplicitId(k: nat): (Step, State) {
    match k
    case 0 => (Arrive, State(1, {}, UNSET, map[]))
    case 1 => (Arrive, State(2, {}, UNSET, map[]))
    case 2 => (Arrive, State(3, {}, UNSET, map[]))
    case 3 => (LoadPage(0, None), State(3, {}, UNSET, map[0 := Backward(None, Latest)]))
    case 4 => (Reply(0, 1), State(3, {2}, UNSET, map[0 := BackwardPage(TWO_OF_THREE, Latest)]))
    case 5 => (Store(0), State(3, {2}, AT_TWO, map[]))
    case 6 => (CatchUp(1), State(3, {2}, AT_TWO, map[1 := Forward(2, 0)]))
    case 7 => (Arrive, State(4, {2}, AT_TWO, map[1 := Forward(2, 0)]))
    case 8 => (Reply(1, 1), State(4, {2, 3}, AT_TWO, map[1 := ForwardPage(2, 0, THREE_OF_FOUR)]))
    case 9 => (LoadPage(2, Some(1)), State(4, {2, 3}, AT_TWO,
                                           map[1 := ForwardPage(2, 0, THREE_OF_FOUR), 2 := Backward(Some(1), Explicit)]))
    case 10 => (Reply(2, 1), State(4, {0, 2, 3}, AT_TWO,
                                   map[1 := ForwardPage(2, 0, THREE_OF_FOUR), 2 := BackwardPage(ZERO_OF_FOUR, Explicit)]))
    case 11 => (Store(2), State(4, {0, 2, 3}, AT_ZERO, map[1 := ForwardPage(2, 0, THREE_OF_FOUR)]))
    case _ => (Store(1), State(4, {0, 2, 3}, ZERO_TO_THREE, map[]))
  }

  lemma ExplicitIdFollows(k: nat)
    requires k < 13
    ensures Follows(FirstAlone, NothingDuringExplicit, ExplicitId, k)
  {
    OneEntryPages();
    hide PageBefore, PageAfter, Entries;
  }

  /** Without the rule on explicit ids: one far back, asked for during a catch-up, leaves a gap. The ids
      stored in the end are 0 and 3, and entry 1 was never delivered. */
  lemma ExplicitIdDuringACatchUp()
    ensures EndsInAGap(FirstAlone, NothingDuringExplicit, StepsOf(ExplicitId, 13))
  {
    hide Run, Keeps, Follows, Covered;
    forall k | 0 <= k < 13 ensures Follows(FirstAlone, NothingDuringExplicit, ExplicitId, k) {
      ExplicitIdFollows(k);
    }
    TableIsARun(FirstAlone, NothingDuringExplicit, ExplicitId, 13);
    OneIsMissing(StateAt(ExplicitId, 13));
  }

  function FirstLoads(k: nat): (Step, State) {
    match k
    case 0 => (Arrive, State(1, {}, UNSET, map[]))
    case 1 => (LoadPage(0, None), State(1, {}, UNSET, map[0 := Backward(None, Latest)]))
    case 2 => (LoadPage(1, None), State(1, {}, UNSET, map[0 := Backward(None, Latest), 1 := Backward(None, Latest)]))
    case 3 => (Reply(0, 1), State(1, {0}, UNSET,
                                  map[0 := BackwardPage(ZERO_OF_ONE, Latest), 1 := Backward(None, Latest)]))
    case 4 => (Arrive, State(2, {0}, UNSET, map[0 := BackwardPage(ZERO_OF_ONE, Latest), 1 := Backward(None, Latest)]))
    case 5 => (Arrive, State(3, {0}, UNSET, map[0 := BackwardPage(ZERO_OF_ONE, Latest), 1 := Backward(None, Latest)]))
    case 6 => (Reply(1, 1), State(3, {0, 2}, UNSET,
                                  map[0 := BackwardPage(ZERO_OF_ONE, Latest), 1 := BackwardPage(TWO_OF_THREE, Latest)]))
    case 7 => (Store(1), State(3, {0, 2}, AT_TWO, map[0 := BackwardPage(ZERO_OF_ONE, Latest)]))
    case 8 => (CatchUp(2), State(3, {0, 2}, AT_TWO,
                                 map[0 := BackwardPage(ZERO_OF_ONE, Latest), 2 := Forward(2, 0)]))
    case 9 => (Arrive, State(4, {0, 2}, AT_TWO, map[0 := BackwardPage(ZERO_OF_ONE, Latest), 2 := Forward(2, 0)]))
    case 10 => (Reply(2, 1), State(4, {0, 2, 3}, AT_TWO,
                                   map[0 := BackwardPage(ZERO_OF_ONE, Latest), 2 := ForwardPage(2, 0, THREE_OF_FOUR)]))
    case 11 => (Store(0), State(4, {0, 2, 3}, AT_ZERO, map[2 := ForwardPage(2, 0, THREE_OF_FOUR)]))
    case _ => (Store(2), State(4, {0, 2, 3}, ZERO_TO_THREE, map[]))
  }

  lemma FirstLoadsFollow(k: nat)
    requires k < 13
    ensures Follows(ExplicitAlone, NothingDuringExplicit, FirstLoads, k)
  {
    OneEntryPages();
    hide PageBefore, PageAfter, Entries;
  }

  /** Without the rule on first loads, and without any explicit id: two loads that start before anything
      is stored, with arrivals between their replies. */
  lemma TwoFirstLoadsAtOnce()
    ensures EndsInAGap(ExplicitAlone, NothingDuringExplicit, StepsOf(FirstLoads, 13))
  {
    hide Run, Keeps, Follows, Covered;
    forall k | 0 <= k < 13 ensures Follows(ExplicitAlone, NothingDuringExplicit, FirstLoads, k) {
      FirstLoadsFollow(k);
    }
    TableIsARun(ExplicitAlone, NothingDuringExplicit, FirstLoads, 13);
    OneIsMissing(StateAt(FirstLoads, 13));
  }

  function LateCatchUp(k: nat): (Step, State) {
    match k
    case 0 => (Arrive, State(1, {}, UNSET, map[]))
    case 1 => (Arrive, State(2, {}, UNSET, map[]))
    case 2 => (Arrive, State(3, {}, UNSET, map[]))
    case 3 => (LoadPage(0, None), State(3, {}, UNSET, map[0 := Backward(None, Latest)]))
    case 4 => (Reply(0, 1), State(3, {2}, UNSET, map[0 := BackwardPage(TWO_OF_THREE, Latest)]))
    case 5 => (Store(0), State(3, {2}, AT_TWO, map[]))
    case 6 => (LoadPage(1, Some(1)), State(3, {2}, AT_TWO, map[1 := Backward(Some(1), Explicit)]))
    case 7 => (CatchUp(2), State(3, {2}, AT_TWO, map[1 := Backward(Some(1), Explicit), 2 := Forward(2, 0)]))
    case 8 => (Reply(1, 1), State(3, {0, 2}, AT_TWO,
                                  map[1 := BackwardPage(ZERO_OF_THREE, Explicit), 2 := Forward(2, 0)]))
    case 9 => (Arrive, State(4, {0, 2}, AT_TWO, map[1 := BackwardPage(ZERO_OF_THREE, Explicit), 2 := Forward(2, 0)]))
    case 10 => (Reply(2, 1), State(4, {0, 2, 3}, AT_TWO,
                                   map[1 := BackwardPage(ZERO_OF_THREE, Explicit), 2 := ForwardPage(2, 0, THREE_OF_FOUR)]))
    case 11 => (Store(1), State(4, {0, 2, 3}, AT_ZERO, map[2 := ForwardPage(2, 0, THREE_OF_FOUR)]))
    case _ => (Store(2), State(4, {0, 2, 3}, ZERO_TO_THREE, map[]))
  }

  lemma LateCatchUpFollows(k: nat)
    requires k < 13
    ensures Follows(FirstAlone, ExplicitAlone, LateCatchUp, k)
  {
    OneEntryPages();
    hide PageBefore, PageAfter, Entries;
  }

  /** Without the third rule: the explicit id is asked for while nothing is under way, but a catch-up
      starts before its page is stored. */
  lemma CatchUpDuringAnExplicitId()
    ensures EndsInAGap(FirstAlone, ExplicitAlone, StepsOf(LateCatchUp, 13))
  {
    hide Run, Keeps, Follows, Covered;
    forall k | 0 <= k < 13 ensures Follows(FirstAlone, ExplicitAlone, LateCatchUp, k) {
      LateCatchUpFollows(k);
    }
    TableIsARun(FirstAlone, ExplicitAlone, LateCatchUp, 13);
    OneIsMissing(StateAt(LateCatchUp, 13));
  }
}
