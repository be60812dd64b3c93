/** What each kernel step does to time, tasks and wait lists, and what that comes to over whole runs. */
module KernelSteps {
  import opened TaskLists

  datatype Event =
    | Create(level: nat)                                  // a task
    | NewWaitList(wait: WaitId, sorted: bool)             // with a semaphore or queue, or with an event group
    | BlockOn(task: Task, wait: WaitId, until: int)       // into a wait list and the delay list
    | Delay(task: Task, until: int)                       // into the delay list only
    | WakeFront(wait: WaitId)
    | WakeTask(task: Task)                                // out of the middle of a wait list
    | Tick

  datatype Limits = Limits(tasks: nat, delay: int)

  datatype Sys = Sys(now: int, count: nat, prio: map<Task, nat>, status: map<Task, State>, wakeup: map<Task, int>,
                     waits: map<WaitId, seq<Task>>, sorted: set<WaitId>) {

    predicate Is(x: Task, st: State) {
      x in status && status[x] == st
    }

    predicate WaitsIn(x: Task, w: WaitId) {
      w in waits && x in waits[w]
    }

    ghost predicate Waits(x: Task) {
      exists w :: WaitsIn(x, w)
    }

    /** A wait list in which nobody stands before a task of a larger level value. */
    ghost predicate InLevelOrder(w: WaitId)
      requires w in waits
    {
      forall i, j :: 0 <= i < j < |waits[w]| ==> !IsBefore(waits[w][j], waits[w][i])
    }

    predicate IsBefore(y: Task, x: Task) {
      y in prio && x in prio && prio[y] > prio[x]
    }

    /** The tasks are numbered, only a blocked task waits, and sorted wait lists are so by level. */
    ghost predicate Ok() {
      && status.Keys == prio.Keys == wakeup.Keys && (forall x: Task :: x in prio <==> x < count)
      && (forall w, x {:trigger WaitsIn(x, w)} :: WaitsIn(x, w) ==> Is(x, Blocked))
      && (forall w :: w in waits && w in sorted ==> InLevelOrder(w))
    }
  }

  // ---------- one step ----------

  /** `t` is `s` with `x` asleep until `until`. */
  ghost predicate FellAsleep(s: Sys, t: Sys, x: Task, until: int) {
    t == s.(status := s.status[x := Blocked], wakeup := s.wakeup[x := until], waits := t.waits)
  }

  /** The place of `x` in a wait list: by level in a sorted one, behind the tasks of a larger level value, and in front
      in the other ones. */
  ghost predicate IsPlaceOf(s: Sys, x: Task, w: WaitId, i: nat)
    requires w in s.waits
  {
    && i <= |s.waits[w]|
    && if w in s.sorted then
         && (forall j :: 0 <= j < i ==> s.IsBefore(s.waits[w][j], x))
         && (i < |s.waits[w]| ==> !s.IsBefore(s.waits[w][i], x))
       else i == 0
  }

  ghost predicate Joins(s: Sys, t: Sys, x: Task, w: WaitId)
    requires w in s.waits
  {
    exists i: nat :: IsPlaceOf(s, x, w, i) && t.waits == s.waits[w := Put(s.waits[w], i, x)]
  }

  /** Everybody but `x` still waits, in the same order. */
  ghost predicate WithoutWaiter(s: Sys, t: Sys, x: Task) {
    t.waits.Keys == s.waits.Keys && forall w :: w in s.waits ==> t.waits[w] == Dropped(s.waits[w], x)
  }

  /** Exactly those whose time has come are ready and wait no more. */
  ghost predicate Ticked(s: Sys, t: Sys) {
    && t == s.(now := s.now + 1, status := t.status, waits := t.waits)
    && t.status.Keys == s.status.Keys && t.waits.Keys == s.waits.Keys
    && (forall x :: x in s.status ==>
          x in s.wakeup && t.status[x] == if s.status[x] == Blocked && s.wakeup[x] <= t.now then Ready else s.status[x])
    && (forall w :: w in s.waits ==> IsPending(s, t, w))
  }

  ghost predicate IsPending(s: Sys, t: Sys, w: WaitId)
    requires w in s.waits && w in t.waits
  {
    (forall x :: x in s.waits[w] ==> x in s.wakeup) && t.waits[w] == Pending(s.waits[w], s.wakeup, t.now)
  }

  /** The state admits the step. */
  ghost predicate Allowed(e: Event, s: Sys, max: Limits) {
    match e
    case Create(level) => s.count < max.tasks && level < LEVELS
    case NewWaitList(w, _) => w !in s.waits
    case BlockOn(x, w, until) => s.Is(x, Ready) && w in s.waits && until <= max.delay
    case Delay(x, until) => s.Is(x, Ready) && until <= max.delay
    case WakeFront(w) => w in s.waits && s.waits[w] != []
    case WakeTask(x) => s.Waits(x)
    case Tick => true
  }

  /** What a step does. A step that the state does not admit does nothing. */
  ghost predicate Effect(e: Event, s: Sys, t: Sys, max: Limits) {
    if !Allowed(e, s, max) then t == s
    else
      match e
      case Create(level) =>
        t == s.(count := s.count + 1, prio := s.prio[s.count := level], status := s.status[s.count := Ready],
                wakeup := s.wakeup[s.count := 0])
      case NewWaitList(w, isSorted) =>
        && t == s.(waits := s.waits[w := []], sorted := t.sorted)
        && forall v :: v in t.sorted <==> if v == w then isSorted else v in s.sorted
      case BlockOn(x, w, until) => FellAsleep(s, t, x, until) && Joins(s, t, x, w)
      case Delay(x, until) => FellAsleep(s, t, x, until) && t.waits == s.waits
      case WakeFront(w) =>
        t == s.(status := s.status[s.waits[w][0] := Ready], waits := s.waits[w := s.waits[w][1..]])
      case WakeTask(x) => t == s.(status := s.status[x := Ready], waits := t.waits) && WithoutWaiter(s, t, x)
      case Tick => Ticked(s, t)
  }

  lemma Blocks(s: Sys, t: Sys, x: Task, w: WaitId, until: int, max: Limits)
    requires s.Is(x, Ready) && w in s.waits && until <= max.delay && FellAsleep(s, t, x, until) && Joins(s, t, x, w)
    ensures Effect(BlockOn(x, w, until), s, t, max)
  {
  }

  /** `tr` are the states of a run, from its first to its last. */
  ghost predicate IsRun(events: seq<Event>, tr: seq<Sys>, max: Limits) {
    && |tr| == |events| + 1 && (forall i :: 0 <= i < |tr| ==> tr[i].Ok())
    && forall i {:trigger events[i]} :: 0 <= i < |events| ==> Effect(events[i], tr[i], tr[i + 1], max)
  }

  lemma RunStarts(s: Sys, max: Limits)
    requires s.Ok()
    ensures IsRun([], [s], max)
  {
  }

  lemma RunMore(events: seq<Event>, tr: seq<Sys>, max: Limits, i: nat, t: Sys)
    requires i < |events| && IsRun(events[..i], tr, max) && t.Ok() && Effect(events[i], tr[i], t, max)
    ensures IsRun(events[..i + 1], tr + [t], max)
  {
    hide Effect, Sys.Ok;
    var longer := events[..i + 1];
    forall k {:trigger longer[k]} | 0 <= k < |longer|
      ensures Effect(longer[k], (tr + [t])[k], (tr + [t])[k + 1], max)
    {
      assert longer[k] == events[k];
      assert k < i ==> longer[k] == events[..i][k];
    }
  }

  // ---------- time and tasks ----------

  function Ticks(events: seq<Event>): nat {
    if events == [] then 0 else Ticks(events[..|events| - 1]) + if events[|events| - 1].Tick? then 1 else 0
  }

  /** The tasks that are asked for at a level that exists. */
  function Creates(events: seq<Event>): nat {
    if events == [] then 0
    else
      var last := events[|events| - 1];
      Creates(events[..|events| - 1]) + if last.Create? && last.level < LEVELS then 1 else 0
  }

  lemma RunBefore(events: seq<Event>, tr: seq<Sys>, max: Limits)
    requires events != [] && IsRun(events, tr, max)
    ensures IsRun(events[..|events| - 1], tr[..|events|], max)
  {
    hide Effect, Sys.Ok;
    var n := |events| - 1;
    forall k {:trigger events[..n][k]} | 0 <= k < n
      ensures Effect(events[..n][k], tr[..n + 1][k], tr[..n + 1][k + 1], max)
    {
      assert events[..n][k] == events[k];
    }
  }

  /** Time is the number of ticks, and every task that is asked for is made as long as there is room. */
  lemma {:induction false} TimeAndTasks(events: seq<Event>, tr: seq<Sys>, max: Limits)
    requires IsRun(events, tr, max) && tr[0].count <= max.tasks
    ensures tr[|events|].now == tr[0].now + Ticks(events)
    ensures tr[|events|].count
            == if tr[0].count + Creates(events) < max.tasks then tr[0].count + Creates(events) else max.tasks
  {
    if events != [] {
      var n := |events| - 1;
      RunBefore(events, tr, max);
      TimeAndTasks(events[..n], tr[..|events|], max);
      var last := events[n];
      assert Effect(last, tr[n], tr[n + 1], max);
      StepCounts(last, tr[n], tr[n + 1], max);
    }
  }

  lemma StepCounts(e: Event, s: Sys, t: Sys, max: Limits)
    requires Effect(e, s, t, max)
    ensures t.now == s.now + if e.Tick? then 1 else 0
    ensures t.count == s.count + if e.Create? && e.level < LEVELS && s.count < max.tasks then 1 else 0
  {
  }

  // ---------- sleeping and waking ----------

  /** The event wakes `x`. */
  predicate Wakes(e: Event, s: Sys, x: Task) {
    match e
    case WakeFront(w) => w in s.waits && s.waits[w] != [] && s.waits[w][0] == x
    case WakeTask(y) => y == x
    case _ => false
  }

  /** A sleeper that is not woken sleeps on, with its wake-up time and in its wait list, until that time has come. */
  lemma SleepsOn(e: Event, s: Sys, t: Sys, max: Limits, x: Task)
    requires Effect(e, s, t, max) && s.Ok() && s.Is(x, Blocked) && !Wakes(e, s, x)
    requires e.Tick? ==> s.wakeup[x] > t.now
    ensures t.Is(x, Blocked) && x in t.wakeup && t.wakeup[x] == s.wakeup[x]
    ensures forall w :: s.WaitsIn(x, w) ==> t.WaitsIn(x, w)
  {
    hide Dropped, Pending, Joins, Sys.Ok;
    NumbersOf(s, x);
    match e
    case BlockOn(y, w, until) =>
      if FellAsleep(s, t, y, until) && w in s.waits && Joins(s, t, y, w) {
        JoinedKeeps(s, t, y, w, x);
      }
    case WakeFront(w) =>
      if w in s.waits && s.waits[w] != [] {
        assert x in s.waits[w] ==> x in s.waits[w][1..];
      }
    case WakeTask(y) =>
      forall w | s.WaitsIn(x, w)
        ensures x in Dropped(s.waits[w], y)
      {
        DroppedHas(s.waits[w], y, x);
      }
    case Tick =>
      forall w | s.WaitsIn(x, w)
        ensures t.WaitsIn(x, w)
      {
        assert IsPending(s, t, w);
        PendingHas(s.waits[w], s.wakeup, t.now, x);
      }
    case _ =>
  }

  lemma NumbersOf(s: Sys, x: Task)
    requires s.Ok() && x in s.status
    ensures x in s.wakeup && x in s.prio && x != s.count
  {
  }

  lemma JoinedKeeps(s: Sys, t: Sys, y: Task, w: WaitId, x: Task)
    requires w in s.waits && Joins(s, t, y, w)
    ensures forall v :: s.WaitsIn(x, v) ==> t.WaitsIn(x, v)
    ensures t.WaitsIn(y, w)
  {
    var i: nat :| IsPlaceOf(s, y, w, i) && t.waits == s.waits[w := Put(s.waits[w], i, y)];
    var r := Put(s.waits[w], i, y);
    assert r[i] == y;
    if x in s.waits[w] {
      var j :| 0 <= j < |s.waits[w]| && s.waits[w][j] == x;
      assert r[if j < i then j else j + 1] == x;
    }
  }

  /** A task that goes to sleep is blocked, with its wake-up time, and in the wait list that it names. */
  lemma FallsAsleep(e: Event, s: Sys, t: Sys, max: Limits)
    requires Effect(e, s, t, max) && (e.BlockOn? || e.Delay?) && Allowed(e, s, max)
    ensures s.Is(e.task, Ready) && t.Is(e.task, Blocked) && e.task in t.wakeup && t.wakeup[e.task] == e.until
    ensures e.BlockOn? ==> t.WaitsIn(e.task, e.wait)
    ensures forall x, w :: s.WaitsIn(x, w) ==> t.WaitsIn(x, w)
  {
    hide Joins;
    if e.BlockOn? {
      JoinedKeeps(s, t, e.task, e.wait, e.task);
      forall x, w | s.WaitsIn(x, w)
        ensures t.WaitsIn(x, w)
      {
        JoinedKeeps(s, t, e.task, e.wait, x);
      }
    }
  }

  /** A new task has the next number and the level asked for and is ready; a new list is empty and sorted as asked for. */
  lemma IsMade(e: Event, s: Sys, t: Sys, max: Limits)
    requires Effect(e, s, t, max) && Allowed(e, s, max)
    ensures e.Create? ==> s.count in t.prio && t.prio[s.count] == e.level && t.Is(s.count, Ready)
    ensures e.NewWaitList? ==> e.wait in t.waits && t.waits[e.wait] == [] && (e.wait in t.sorted <==> e.sorted)
  {
  }

  /** Levels do not change, and lists stay sorted or not. */
  ghost predicate Keeps(s: Sys, t: Sys) {
    && (forall x :: x in s.prio ==> x in t.prio && t.prio[x] == s.prio[x])
    && (forall w :: w in s.waits ==> w in t.waits && (w in t.sorted <==> w in s.sorted))
  }

  lemma StepKeeps(e: Event, s: Sys, t: Sys, max: Limits)
    requires Effect(e, s, t, max) && s.Ok()
    ensures Keeps(s, t)
  {
    hide Pending, Dropped, Put;
  }

  lemma {:induction false} RunKeeps(events: seq<Event>, tr: seq<Sys>, max: Limits, i: nat, j: nat)
    requires IsRun(events, tr, max) && i <= j <= |events|
    ensures Keeps(tr[i], tr[j])
    decreases j - i
  {
    hide Effect, Sys.Ok;
    if i < j {
      assert Effect(events[j - 1], tr[j - 1], tr[j], max);
      StepKeeps(events[j - 1], tr[j - 1], tr[j], max);
      RunKeeps(events, tr, max, i, j - 1);
    }
  }

  /** Being woken, and having one's time come, make ready and leave every wait list. */
  lemma WakesUp(e: Event, s: Sys, t: Sys, max: Limits, x: Task)
    requires Effect(e, s, t, max) && s.Ok() && t.Ok() && s.Is(x, Blocked)
    requires (Wakes(e, s, x) && s.Waits(x)) || (e.Tick? && s.wakeup[x] <= t.now)
    ensures t.Is(x, Ready) && !t.Waits(x)
  {
    hide Dropped, Pending, Joins;
  }

  /** A task that is ready stays so until it goes to sleep itself. */
  lemma ReadyStays(e: Event, s: Sys, t: Sys, max: Limits, x: Task)
    requires Effect(e, s, t, max) && s.Is(x, Ready)
    requires (e.BlockOn? || e.Delay?) ==> e.task != x
    ensures t.Is(x, Ready)
  {
    hide Dropped, Pending, Joins, Sys.Ok;
  }

  ghost predicate NotWoken(events: seq<Event>, tr: seq<Sys>, x: Task, i: nat, j: nat)
    requires i <= j <= |events| && |events| < |tr|
  {
    forall k :: i <= k < j ==> !Wakes(events[k], tr[k], x)
  }

  /** Over a whole run: a sleeper that nobody wakes sleeps, and waits where it waits, as long as its time has not come. */
  lemma {:induction false} SleepsUntil(events: seq<Event>, tr: seq<Sys>, max: Limits, x: Task, i: nat, j: nat)
    requires IsRun(events, tr, max) && i <= j <= |events| && tr[i].Is(x, Blocked) && x in tr[i].wakeup
    requires NotWoken(events, tr, x, i, j) && tr[j].now < tr[i].wakeup[x]
    ensures tr[j].Is(x, Blocked) && x in tr[j].wakeup && tr[j].wakeup[x] == tr[i].wakeup[x]
    ensures forall w :: tr[i].WaitsIn(x, w) ==> tr[j].WaitsIn(x, w)
    decreases j - i
  {
    hide Effect, Wakes, Sys.Ok;
    if i < j {
      var e := events[j - 1];
      assert Effect(e, tr[j - 1], tr[j], max);
      StepCounts(e, tr[j - 1], tr[j], max);
      SleepsUntil(events, tr, max, x, i, j - 1);
      SleepsOn(e, tr[j - 1], tr[j], max, x);
    }
  }

  /** It is ready after the tick at which its time comes, in no wait list any more. */
  lemma WakesInTime(events: seq<Event>, tr: seq<Sys>, max: Limits, x: Task, i: nat, j: nat)
    requires IsRun(events, tr, max) && i <= j < |events| && tr[i].Is(x, Blocked) && x in tr[i].wakeup
    requires NotWoken(events, tr, x, i, j) && tr[j].now < tr[i].wakeup[x] <= tr[j + 1].now
    ensures events[j].Tick? && tr[j].Is(x, Blocked) && tr[j + 1].Is(x, Ready) && !tr[j + 1].Waits(x)
  {
    hide Effect, Wakes, Sys.Ok;
    assert Effect(events[j], tr[j], tr[j + 1], max);
    StepCounts(events[j], tr[j], tr[j + 1], max);
    SleepsUntil(events, tr, max, x, i, j);
    WakesUp(events[j], tr[j], tr[j + 1], max, x);
  }

  /** A wake-up makes the front of the list ready, which leaves the list; the others move up. In a sorted list nobody has
      a larger level value than the one that is woken. */
  lemma FrontWakes(events: seq<Event>, tr: seq<Sys>, max: Limits, w: WaitId, i: nat)
    requires IsRun(events, tr, max) && i < |events| && events[i] == WakeFront(w)
    requires w in tr[i].waits && tr[i].waits[w] != []
    ensures var x := tr[i].waits[w][0];
            tr[i].Is(x, Blocked) && tr[i + 1].Is(x, Ready) && !tr[i + 1].WaitsIn(x, w)
            && w in tr[i + 1].waits && tr[i].waits[w] == [x] + tr[i + 1].waits[w]
            && (w in tr[i].sorted ==> forall y :: y in tr[i].waits[w] ==> !tr[i].IsBefore(y, x))
  {
    hide Effect;
    assert Effect(events[i], tr[i], tr[i + 1], max);
    var x := tr[i].waits[w][0];
    assert tr[i].WaitsIn(x, w) && tr[i].Ok();
    if w in tr[i].sorted {
      assert tr[i].InLevelOrder(w);
      forall y | y in tr[i].waits[w]
        ensures !tr[i].IsBefore(y, x)
      {
        var j :| 0 <= j < |tr[i].waits[w]| && tr[i].waits[w][j] == y;
      }
    }
    FrontLeaves(tr[i], tr[i + 1], max, w);
    WakesUp(events[i], tr[i], tr[i + 1], max, x);
  }

  lemma FrontLeaves(s: Sys, t: Sys, max: Limits, w: WaitId)
    requires Effect(WakeFront(w), s, t, max) && w in s.waits && s.waits[w] != []
    ensures w in t.waits && s.waits[w] == [s.waits[w][0]] + t.waits[w]
  {
  }
}
