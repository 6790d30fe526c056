/** The counting/sleepers semaphore of src/task/semaphore.c and the wait queue steps it uses,
    as a transition system over any finite set of tasks on any number of processors.

    A step is what one task does between two points where another task can interfere: one
    atomic operation on `count`, or one piece of code run under the wait queue's lock. */
module Semaphore {
  import opened Sets

  type Task = nat

  datatype Option<T> = None | Some(value: T)

  /** Where a task is in `downSemaphore` or `upSemaphore`. */
  datatype Place =
    | Outside
    | InFlight  // lost the fast path, the queue lock not yet taken
    | Trying    // in the queue, holds the lock, about to add `sleepers - 1` to `count`
    | Won       // holds the lock, the addition gave a non-negative count
    | Lost      // holds the lock, the addition gave a negative count
    | Blocked   // in the queue, in `schedule()`
    | Holding   // returned from `downSemaphore`
    | Upped     // in `upSemaphore`, about to wake the head of the queue

  datatype State = State(
    place: map<Task, Place>,
    count: int,
    sleepers: int,
    queue: seq<Task>,
    lock: Option<Task>,
    asleep: set<Task>  // tasks whose state is `TaskUninterruptible`
  )

  datatype Step =
    | DownFast | Enter | Try | Finish | Sleep | Resume | Up | Wake
    | WokenByOther  // any other wake-up of a sleeping task

  predicate At(s: State, t: Task, p: Place) {
    t in s.place && s.place[t] == p
  }

  function MoveTo(s: State, t: Task, p: Place): State {
    s.(place := s.place[t := p])
  }

  /** `wakeUpLocked`: the task at the head of the queue becomes runnable. */
  function WakeHead(s: State): State {
    if s.queue == [] then s else s.(asleep := s.asleep - {s.queue[0]})
  }

  predicate Enabled(s: State, t: Task, step: Step) {
    match step
    case DownFast => At(s, t, Outside)
    case Enter => At(s, t, InFlight) && s.lock == None
    case Try => At(s, t, Trying)
    case Finish => At(s, t, Won)
    case Sleep => At(s, t, Lost)
    case Resume => At(s, t, Blocked) && t !in s.asleep && s.lock == None
    case Up => At(s, t, Holding)
    case Wake => At(s, t, Upped) && s.lock == None
    case WokenByOther => t in s.asleep
  }

  function Do(s: State, t: Task, step: Step): State
    requires Enabled(s, t, step)
  {
    match step
    case DownFast =>
      MoveTo(s.(count := s.count - 1), t, if s.count - 1 >= 0 then Holding else InFlight)
    case Enter =>
      MoveTo(s.(lock := Some(t), queue := [t] + s.queue, sleepers := s.sleepers + 1), t, Trying)
    case Try =>
      var c := s.count + (s.sleepers - 1);
      MoveTo(s.(count := c), t, if c >= 0 then Won else Lost)
    case Finish =>
      WakeHead(MoveTo(s.(sleepers := 0, queue := Without(s.queue, t), lock := None), t, Holding))
    case Sleep =>
      MoveTo(s.(sleepers := 1, asleep := s.asleep + {t}, lock := None), t, Blocked)
    case Resume =>
      MoveTo(s.(lock := Some(t)), t, Trying)
    case Up =>
      MoveTo(s.(count := s.count + 1), t, if s.count + 1 >= 0 then Upped else Outside)
    case Wake =>
      MoveTo(WakeHead(s), t, Outside)
    case WokenByOther =>
      s.(asleep := s.asleep - {t})
  }

  /** `initSemaphore`. */
  predicate Init(s: State) {
    && (forall t | t in s.place :: s.place[t] == Outside)
    && s.count == 1 && s.sleepers == 0 && s.queue == [] && s.lock == None && s.asleep == {}
  }

  predicate Next(s: State, r: State) {
    exists t, step | t in s.place && Enabled(s, t, step) :: r == Do(s, t, step)
  }

  /** A run: any number of tasks, any interleaving. */
  ghost predicate Run(trace: seq<State>) {
    && trace != [] && Init(trace[0])
    && forall i | 0 <= i < |trace| - 1 :: Next(trace[i], trace[i + 1])
  }

  // ----- What is counted -----

  function TasksAt(place: map<Task, Place>, p: Place): set<Task> {
    set t | t in place && place[t] == p
  }

  /** Number of tasks at a place. */
  function N(s: State, p: Place): nat {
    |TasksAt(s.place, p)|
  }

  /** The semaphore has been given to those that left `downSemaphore` or are about to. */
  function Owners(s: State): nat {
    N(s, Holding) + N(s, Won)
  }

  /** `sleepers`, or the value it is about to be given by the task holding the lock. */
  function Sleepers(s: State): int {
    if N(s, Won) > 0 then 0 else if N(s, Lost) > 0 then 1 else s.sleepers
  }

  predicate Locked(p: Place) {
    p == Trying || p == Won || p == Lost
  }

  predicate Queued(p: Place) {
    Locked(p) || p == Blocked
  }

  ghost predicate QueueOk(s: State) {
    && (forall t | t in s.place :: Locked(s.place[t]) <==> s.lock == Some(t))
    && (s.lock.Some? ==> s.lock.value in s.place)
    && (forall t :: t in s.queue <==> t in s.place && Queued(s.place[t]))
    && NoDup(s.queue)
    && (forall t | t in s.asleep :: At(s, t, Blocked))
  }

  ghost predicate CountOk(s: State) {
    && s.count == 1 - Owners(s) - N(s, InFlight) - Sleepers(s)
    && Owners(s) <= 1
    && 0 <= s.sleepers <= 2
    && (s.lock == None ==> s.sleepers <= 1)
  }

  /** A task in the queue that will look at the count again without being woken. */
  ghost predicate Awake(s: State, t: Task) {
    t in s.queue && t !in s.asleep
  }

  ghost predicate SomeoneAwake(s: State) {
    exists t :: Awake(s, t) && !At(s, t, Lost)
  }

  /** Nobody is left sleeping next to a free semaphore. */
  ghost predicate NoLostWakeUp(s: State) {
    Owners(s) == 0 && s.queue != [] ==>
      N(s, InFlight) > 0 || N(s, Upped) > 0 || SomeoneAwake(s)
  }

  /** The sleepers the queue holds are accounted for, or one of them is about to account for itself. */
  ghost predicate SleepersOk(s: State) {
    s.lock == None ==>
      && (s.sleepers == 1 ==> s.queue != [])
      && (s.queue != [] ==> s.sleepers == 1 || SomeoneAwake(s))
  }

  ghost predicate Inv(s: State) {
    QueueOk(s) && CountOk(s) && NoLostWakeUp(s) && SleepersOk(s)
  }

  lemma InitInv(s: State)
    requires Init(s)
    ensures Inv(s)
  {
  }

  // ----- One step keeps it -----

  lemma CountAfterMove(place: map<Task, Place>, t: Task, p: Place, q: Place)
    requires t in place && place[t] != p
    ensures |TasksAt(place[t := p], q)| == |TasksAt(place, q)| + (if q == p then 1 else if q == place[t] then -1 else 0)
  {
    var before, after := TasksAt(place, q), TasksAt(place[t := p], q);
    if q == p {
      assert after == before + {t};
    } else if q == place[t] {
      assert before == after + {t};
    } else {
      assert after == before;
    }
  }

  /** Only the task that holds the lock is at a locked place. */
  lemma LockedCounts(s: State)
    requires QueueOk(s)
    ensures N(s, Trying) + N(s, Won) + N(s, Lost) == if s.lock == None then 0 else 1
    ensures forall t | t in s.place && Locked(s.place[t]) :: N(s, s.place[t]) == 1
    ensures forall t | t in s.place :: N(s, s.place[t]) > 0
  {
    if s.lock.Some? {
      var u := s.lock.value;
      assert forall p | Locked(p) :: TasksAt(s.place, p) == if s.place[u] == p then {u} else {};
    } else {
      assert forall p | Locked(p) :: TasksAt(s.place, p) == {};
    }
    forall t | t in s.place
      ensures N(s, s.place[t]) > 0
    {
      assert t in TasksAt(s.place, s.place[t]);
    }
  }

  lemma StepKeepsQueue(s: State, t: Task, step: Step)
    requires QueueOk(s) && t in s.place && Enabled(s, t, step)
    ensures QueueOk(Do(s, t, step))
  {
    match step
    case Enter => EnterKeepsQueue(s, t);
    case Finish => FinishKeepsQueue(s, t);
    case Sleep => SleepKeepsQueue(s, t);
    case Wake => WakeKeepsQueue(s, t);
    case _ =>
  }

  lemma SleepKeepsQueue(s: State, t: Task)
    requires QueueOk(s) && t in s.place && Enabled(s, t, Sleep)
    ensures QueueOk(Do(s, t, Sleep))
  {
  }

  lemma WakeKeepsQueue(s: State, t: Task)
    requires QueueOk(s) && t in s.place && Enabled(s, t, Wake)
    ensures QueueOk(Do(s, t, Wake))
  {
  }

  lemma EnterKeepsQueue(s: State, t: Task)
    requires QueueOk(s) && t in s.place && Enabled(s, t, Enter)
    ensures QueueOk(Do(s, t, Enter))
  {
    assert t !in s.queue;
  }

  lemma FinishKeepsQueue(s: State, t: Task)
    requires QueueOk(s) && t in s.place && Enabled(s, t, Finish)
    ensures QueueOk(Do(s, t, Finish))
  {
    WithoutMembers(s.queue, t);
  }

  lemma StepCounts(s: State, t: Task, step: Step)
    requires t in s.place && Enabled(s, t, step) && step != WokenByOther
    ensures var r := Do(s, t, step);
            t in r.place &&
            forall q: Place :: N(r, q) == N(s, q) + (if q == r.place[t] then 1 else if q == s.place[t] then -1 else 0)
  {
    var r := Do(s, t, step);
    var p := r.place[t];
    forall q: Place
      ensures N(r, q) == N(s, q) + (if q == p then 1 else if q == s.place[t] then -1 else 0)
    {
      CountAfterMove(s.place, t, p, q);
    }
  }

  lemma StepKeepsCount(s: State, t: Task, step: Step)
    requires QueueOk(s) && CountOk(s) && t in s.place && Enabled(s, t, step)
    ensures CountOk(Do(s, t, step))
  {
    if step == WokenByOther {
      assert Do(s, t, step).place == s.place;
    } else {
      LockedCounts(s);
      StepCounts(s, t, step);
      CountsAdd(s, t, step);
    }
  }

  lemma CountsAdd(s: State, t: Task, step: Step)
    requires CountOk(s) && t in s.place && Enabled(s, t, step) && step != WokenByOther
    requires N(s, Trying) + N(s, Won) + N(s, Lost) == if s.lock == None then 0 else 1
    requires N(s, s.place[t]) > 0 && (Locked(s.place[t]) ==> N(s, s.place[t]) == 1) && (Locked(s.place[t]) <==> s.lock == Some(t))
    requires var r := Do(s, t, step);
             t in r.place && forall q: Place :: N(r, q) == N(s, q) + (if q == r.place[t] then 1 else if q == s.place[t] then -1 else 0)
    ensures CountOk(Do(s, t, step))
  {
  }

  /** A task that is awake in the queue stays so, unless it leaves with the semaphore or has
      just found the count negative. */
  lemma StepKeepsAwake(s: State, t: Task, step: Step)
    requires Inv(s) && t in s.place && Enabled(s, t, step) && step != Finish && step != Try
    ensures SomeoneAwake(s) ==> SomeoneAwake(Do(s, t, step))
  {
    var r := Do(s, t, step);
    if SomeoneAwake(s) {
      var x :| Awake(s, x) && !At(s, x, Lost);
      assert Awake(r, x) && !At(r, x, Lost);
    }
  }

  lemma NewcomerIsAwake(s: State, t: Task, step: Step)
    requires Inv(s) && t in s.place && Enabled(s, t, step) && (step == Enter || step == Resume)
    ensures SomeoneAwake(Do(s, t, step))
  {
    var r := Do(s, t, step);
    assert Awake(r, t) && !At(r, t, Lost);
  }

  /** `wakeUpLocked` leaves someone awake, if anyone is queued. */
  lemma HeadIsAwake(s: State, t: Task, step: Step)
    requires Inv(s) && t in s.place && Enabled(s, t, step) && (step == Finish || step == Wake)
    ensures Do(s, t, step).queue != [] ==> SomeoneAwake(Do(s, t, step))
  {
    var r := Do(s, t, step);
    StepKeepsQueue(s, t, step);
    if r.queue != [] {
      var head := r.queue[0];
      assert head in r.queue && Awake(r, head) && !At(r, head, Lost);
    }
  }

  lemma TryingIsAwake(s: State)
    requires QueueOk(s) && N(s, Trying) > 0
    ensures SomeoneAwake(s)
  {
    var x :| x in TasksAt(s.place, Trying);
    assert Awake(s, x) && !At(s, x, Lost);
  }

  lemma StepKeepsWakeUps(s: State, t: Task, step: Step)
    requires Inv(s) && t in s.place && Enabled(s, t, step)
    ensures NoLostWakeUp(Do(s, t, step)) && SleepersOk(Do(s, t, step))
  {
    LockedCounts(s);
    if step != WokenByOther {
      StepCounts(s, t, step);
    }
    match step
    case Finish => HeadIsAwake(s, t, step);
    case Wake => HeadIsAwake(s, t, step);
    case Enter => NewcomerIsAwake(s, t, step);
    case Resume => NewcomerIsAwake(s, t, step);
    case Try =>
    case _ => SomeoneStaysAwake(s, t, step);
  }

  lemma SomeoneStaysAwake(s: State, t: Task, step: Step)
    requires Inv(s) && t in s.place && Enabled(s, t, step) && step != Finish && step != Try
    ensures SomeoneAwake(s) || N(s, Trying) > 0 ==> SomeoneAwake(Do(s, t, step))
  {
    if N(s, Trying) > 0 {
      TryingIsAwake(s);
    }
    StepKeepsAwake(s, t, step);
  }

  lemma StepKeepsInv(s: State, t: Task, step: Step)
    requires Inv(s) && t in s.place && Enabled(s, t, step)
    ensures Inv(Do(s, t, step))
  {
    StepKeepsQueue(s, t, step);
    StepKeepsCount(s, t, step);
    StepKeepsWakeUps(s, t, step);
  }

  // ----- Every run -----

  lemma NextKeepsInv(s: State, r: State)
    requires Inv(s) && Next(s, r)
    ensures Inv(r)
  {
    var t, step :| t in s.place && Enabled(s, t, step) && r == Do(s, t, step);
    StepKeepsInv(s, t, step);
  }

  lemma {:induction false} RunInv(trace: seq<State>, i: nat)
    requires Run(trace) && i < |trace|
    ensures Inv(trace[i])
  {
    if i == 0 {
      InitInv(trace[0]);
    } else {
      RunInv(trace, i - 1);
      NextKeepsInv(trace[i - 1], trace[i]);
    }
  }

  /** Mutual exclusion: in no reachable state do two tasks hold the semaphore. */
  lemma MutualExclusion(trace: seq<State>, i: nat, t: Task, u: Task)
    requires Run(trace) && i < |trace|
    requires At(trace[i], t, Holding) && At(trace[i], u, Holding)
    ensures t == u
  {
    RunInv(trace, i);
    var holders := TasksAt(trace[i].place, Holding);
    if t != u {
      assert {t, u} <= holders;
      SubsetSize({t, u}, holders);
    }
  }

  /** Outside the queue lock, `count` and `sleepers` account for every task. */
  lemma CountIdentity(trace: seq<State>, i: nat)
    requires Run(trace) && i < |trace| && trace[i].lock == None
    ensures var s := trace[i];
            && s.count == 1 - N(s, Holding) - N(s, InFlight) - s.sleepers
            && (s.sleepers == 0 || s.sleepers == 1)
  {
    RunInv(trace, i);
    LockedCounts(trace[i]);
  }

  /** No lost wake-up: if nobody holds the semaphore and tasks are queued, some task is on its
      way to the slow path, awake in the queue, or about to wake the head of the queue. */
  lemma SomebodyWillLook(trace: seq<State>, i: nat)
    requires Run(trace) && i < |trace|
    requires trace[i].queue != [] && forall t | t in trace[i].place :: trace[i].place[t] != Holding
    ensures var s := trace[i];
            exists t | t in s.place ::
              s.place[t] == InFlight || s.place[t] == Upped || (Queued(s.place[t]) && t !in s.asleep)
  {
    var s := trace[i];
    RunInv(trace, i);
    LockedCounts(s);
    assert TasksAt(s.place, Holding) == {};
    if N(s, Won) > 0 {
      Witness(s, Won);
    } else if N(s, InFlight) > 0 {
      Witness(s, InFlight);
    } else if N(s, Upped) > 0 {
      Witness(s, Upped);
    } else {
      var x :| Awake(s, x) && !At(s, x, Lost);
      assert x in s.place && Queued(s.place[x]);
    }
  }

  lemma Witness(s: State, p: Place)
    requires N(s, p) > 0
    ensures exists t :: At(s, t, p)
  {
    var t :| t in TasksAt(s.place, p);
    assert At(s, t, p);
  }

  /** When every task is outside, the semaphore is as `initSemaphore` left it. */
  lemma QuietMeansInitial(trace: seq<State>, i: nat)
    requires Run(trace) && i < |trace|
    requires forall t | t in trace[i].place :: trace[i].place[t] == Outside
    ensures Init(trace[i])
  {
    var s := trace[i];
    RunInv(trace, i);
    forall p: Place | p != Outside
      ensures N(s, p) == 0
    {
      assert TasksAt(s.place, p) == {};
    }
    LockedCounts(s);
    if s.queue != [] {
      FirstIsMember(s.queue);
    }
  }

  // ----- Who is woken -----

  datatype Move = Move(task: Task, step: Step)

  predicate Moves(s: State, m: Move, r: State) {
    m.task in s.place && Enabled(s, m.task, m.step) && r == Do(s, m.task, m.step)
  }

  /** A run with the moves it makes. */
  ghost predicate Moved(trace: seq<State>, moves: seq<Move>) {
    && |trace| == |moves| + 1 && Init(trace[0])
    && forall i | 0 <= i < |moves| :: MoveAt(trace, moves, i)
  }

  predicate MoveAt(trace: seq<State>, moves: seq<Move>, i: nat)
    requires i < |moves| && i + 1 < |trace|
  {
    Moves(trace[i], moves[i], trace[i + 1])
  }

  lemma MovedIsRun(trace: seq<State>, moves: seq<Move>)
    requires Moved(trace, moves)
    ensures Run(trace)
  {
    forall i | 0 <= i < |trace| - 1
      ensures Next(trace[i], trace[i + 1])
    {
      assert MoveAt(trace, moves, i);
    }
  }

  lemma MoveOfRun(trace: seq<State>, moves: seq<Move>, n: nat)
    requires Moved(trace, moves) && n < |moves|
    ensures Inv(trace[n]) && Moves(trace[n], moves[n], trace[n + 1])
  {
    MovedIsRun(trace, moves);
    RunInv(trace, n);
    assert MoveAt(trace, moves, n);
  }

  /** The last of the first `n` moves with which `t` joined the queue, -1 if there is none. */
  function LastEnter(moves: seq<Move>, n: nat, t: Task): (i: int)
    requires n <= |moves|
    ensures -1 <= i < n && (i >= 0 ==> moves[i] == Move(t, Enter))
    ensures forall j | i < j < n :: moves[j] != Move(t, Enter)
  {
    if n == 0 then -1 else if moves[n - 1] == Move(t, Enter) then n - 1 else LastEnter(moves, n - 1, t)
  }

  ghost predicate NewestFirst(queue: seq<Task>, moves: seq<Move>, n: nat)
    requires n <= |moves|
  {
    forall a, b | 0 <= a < b < |queue| :: LastEnter(moves, n, queue[a]) > LastEnter(moves, n, queue[b])
  }

  lemma EntersFirst(queue: seq<Task>, moves: seq<Move>, n: nat)
    requires n < |moves| && NewestFirst(queue, moves, n) && moves[n].step == Enter && moves[n].task !in queue
    ensures NewestFirst([moves[n].task] + queue, moves, n + 1)
  {
  }

  lemma LeavesInOrder(queue: seq<Task>, moves: seq<Move>, n: nat, k: nat)
    requires n <= |moves| && NewestFirst(queue, moves, n) && NoDup(queue) && k < |queue|
    ensures NewestFirst(Without(queue, queue[k]), moves, n)
  {
    WithoutCuts(queue, k);
  }

  lemma MoveKeepsNewestFirst(s: State, moves: seq<Move>, n: nat, r: State)
    requires n < |moves| && Inv(s) && Moves(s, moves[n], r) && NewestFirst(s.queue, moves, n)
    ensures NewestFirst(r.queue, moves, n + 1)
  {
    var t := moves[n].task;
    match moves[n].step
    case Enter => EntersFirst(s.queue, moves, n);
    case Finish =>
      assert t in s.queue;
      var k :| 0 <= k < |s.queue| && s.queue[k] == t;
      LeavesInOrder(s.queue, moves, n, k);
    case _ =>
  }

  lemma {:induction false} QueueNewestFirst(trace: seq<State>, moves: seq<Move>, n: nat)
    requires Moved(trace, moves) && n < |trace|
    ensures NewestFirst(trace[n].queue, moves, n)
  {
    if n > 0 {
      QueueNewestFirst(trace, moves, n - 1);
      MoveOfRun(trace, moves, n - 1);
      MoveKeepsNewestFirst(trace[n - 1], moves, n - 1, trace[n]);
    }
  }

  /** The semaphore is not fair: whoever gives it up wakes, of all tasks in the queue, the one that joined it
      last, however long the others have waited. */
  lemma NewestIsWoken(trace: seq<State>, moves: seq<Move>, n: nat, t: Task, u: Task)
    requires Moved(trace, moves) && n < |moves| && (moves[n].step == Wake || moves[n].step == Finish)
    requires t in trace[n].asleep && t !in trace[n + 1].asleep
    requires u in trace[n + 1].queue && u != t
    ensures LastEnter(moves, n + 1, u) < LastEnter(moves, n + 1, t)
  {
    QueueNewestFirst(trace, moves, n + 1);
    assert MoveAt(trace, moves, n);
    assert trace[n + 1].queue[0] == t;
    var k :| 0 <= k < |trace[n + 1].queue| && trace[n + 1].queue[k] == u;
  }

  /** A task that goes to sleep has no move until it is woken, and then it is by another task that gives the
      semaphore up or passes it on, as the head of the queue, or from elsewhere. */
  lemma SleepsUntilWoken(s: State, t: Task)
    requires Inv(s) && t in s.place && Enabled(s, t, Sleep)
    ensures var r := Do(s, t, Sleep);
            && (forall step | step != WokenByOther :: !Enabled(r, t, step))
            && forall m, n | Moves(r, m, n) && t !in n.asleep ::
                 if m.task == t then m.step == WokenByOther
                 else (m.step == Wake || m.step == Finish) && n.queue != [] && n.queue[0] == t
  {
  }

  // ----- Progress -----

  /** The moves lead from `s` to `r`, without a new `downSemaphore`, an `upSemaphore` or a
      wake-up from elsewhere: only tasks already contending run. */
  ghost predicate Leads(s: State, moves: seq<Move>, r: State)
    decreases |moves|
  {
    if moves == [] then s == r
    else
      var m := moves[0];
      && m.task in s.place && Enabled(s, m.task, m.step)
      && m.step != DownFast && m.step != Up && m.step != WokenByOther
      && Leads(Do(s, m.task, m.step), moves[1..], r)
  }

  /** How far the lock holder is from giving somebody else a turn. */
  ghost function Phase(s: State): nat {
    if N(s, InFlight) > 0 then
      if N(s, Trying) > 0 then 3 else if N(s, Lost) > 0 then 2 else 1
    else
      if N(s, Lost) > 0 then 3 else if N(s, Trying) > 0 then 1 else 2
  }

  /** The contending task that runs next when nobody owns the semaphore. */
  lemma ChooseMove(s: State) returns (m: Move)
    requires Inv(s) && Owners(s) == 0 && s.queue != []
    ensures m.task in s.place && Enabled(s, m.task, m.step)
    ensures match m.step
            case Try => true
            case Sleep => true
            case Enter => N(s, Trying) == N(s, Lost) == 0
            case Wake => N(s, Trying) == N(s, Lost) == N(s, InFlight) == 0
            case Resume => N(s, Trying) == N(s, Lost) == N(s, InFlight) == N(s, Upped) == 0
            case _ => false
  {
    LockedCounts(s);
    if N(s, Trying) > 0 {
      Witness(s, Trying);
      var t :| At(s, t, Trying);
      m := Move(t, Try);
    } else if N(s, Lost) > 0 {
      Witness(s, Lost);
      var t :| At(s, t, Lost);
      m := Move(t, Sleep);
    } else if N(s, InFlight) > 0 {
      Witness(s, InFlight);
      var t :| At(s, t, InFlight);
      m := Move(t, Enter);
    } else if N(s, Upped) > 0 {
      Witness(s, Upped);
      var t :| At(s, t, Upped);
      m := Move(t, Wake);
    } else {
      var t :| Awake(s, t) && !At(s, t, Lost);
      m := Move(t, Resume);
    }
  }

  lemma NextMove(s: State) returns (m: Move)
    requires Inv(s) && Owners(s) == 0 && s.queue != []
    ensures m.task in s.place && Enabled(s, m.task, m.step)
    ensures m.step != DownFast && m.step != Up && m.step != WokenByOther
    ensures var r := Do(s, m.task, m.step);
            && Inv(r) && (Owners(r) > 0 || r.queue != [])
            && (Owners(r) == 0 ==>
                  (N(s, InFlight), N(s, Upped), Phase(s) decreases to N(r, InFlight), N(r, Upped), Phase(r)))
  {
    m := ChooseMove(s);
    LockedCounts(s);
    StepKeepsInv(s, m.task, m.step);
    StepCounts(s, m.task, m.step);
  }

  /** No deadlock: while the semaphore is free and tasks are queued, those already contending
      can bring one of them through, whatever the state they are in. */
  lemma {:induction false} SomebodyGetsThrough(s: State) returns (moves: seq<Move>, r: State)
    requires Inv(s) && Owners(s) == 0 && s.queue != []
    ensures Leads(s, moves, r) && Inv(r) && Owners(r) == 1
    decreases N(s, InFlight), N(s, Upped), Phase(s)
  {
    var m := NextMove(s);
    var next := Do(s, m.task, m.step);
    if Owners(next) > 0 {
      moves, r := [m], next;
      assert Leads(next, moves[1..], r);
    } else {
      var rest;
      rest, r := SomebodyGetsThrough(next);
      moves := [m] + rest;
      assert moves[1..] == rest;
    }
  }
}
