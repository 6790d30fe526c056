/** Tasks on one processor: the run queue, the family tree and the wait/exit handshake of
    src/task/task.c as steps of the running task. */
module TaskState {
  import opened Sets

  const IDLE: nat := 0  // the idle task has the first pid

  datatype Run = Running | Interruptible | Uninterruptible | Zombie

  /** Where a task continues: `InWait(pid)` is the wait loop of `doWaitPID`. */
  datatype Where = Elsewhere | InWait(pid: nat)

  /** `struct Task`, known by its pid; `children` front first. */
  datatype Task = Task(state: Run, parent: nat, children: seq<nat>, waiting: bool, exitCode: int, at: Where)

  /** `next` is the next pid. */
  datatype State = State(tasks: map<nat, Task>, runnable: seq<nat>, current: nat, next: nat)

  predicate Alive(s: State, t: nat) {
    t in s.tasks && s.tasks[t].state != Zombie
  }

  predicate Matches(pid: nat, c: nat) {
    pid == 0 || c == pid
  }

  // ----- Invariants -----

  /** The children of `t` are tasks that call it their parent. */
  ghost predicate ChildrenOk(tasks: map<nat, Task>, t: nat)
    requires t in tasks
  {
    && NoDup(tasks[t].children)
    && forall c | c in tasks[t].children :: c in tasks && c != IDLE && tasks[c].parent == t
  }

  /** The parent of `t` is older, has `t` in its list, and is no zombie unless it is just exiting. */
  ghost predicate ParentOk(tasks: map<nat, Task>, t: nat, exiting: nat)
    requires t in tasks
  {
    var p := tasks[t].parent;
    p in tasks && p < t && t in tasks[p].children && (tasks[p].state == Zombie ==> p == exiting)
  }

  ghost predicate Family(tasks: map<nat, Task>, next: nat, exiting: nat) {
    && IDLE in tasks && tasks[IDLE].state == Running
    && (forall t | t in tasks :: t < next)
    && (forall t {:trigger ChildrenOk(tasks, t)} | t in tasks :: ChildrenOk(tasks, t))
    && (forall t {:trigger ParentOk(tasks, t, exiting)} | t in tasks && t != IDLE :: ParentOk(tasks, t, exiting))
  }

  /** Apart from the running and the idle task, exactly the tasks in state `Running` are on the run queue. */
  ghost predicate Queue(tasks: map<nat, Task>, runnable: seq<nat>, current: nat) {
    && NoDup(runnable) && current in tasks && current !in runnable && IDLE !in runnable
    && (forall t | t in runnable :: t in tasks)
    && (forall t | t in tasks && t != current && t != IDLE :: t in runnable <==> tasks[t].state == Running)
  }

  predicate Asleep(t: Task) {
    t.at.InWait? && t.state != Running
  }

  ghost predicate HasChildFor(tasks: map<nat, Task>, p: nat, pid: nat)
    requires p in tasks
  {
    exists c | c in tasks[p].children :: Matches(pid, c)
  }

  ghost predicate NoZombieFor(tasks: map<nat, Task>, p: nat, pid: nat)
    requires p in tasks
  {
    forall c | c in tasks[p].children && c in tasks && Matches(pid, c) :: tasks[c].state != Zombie
  }

  /** A task asleep in `doWaitPID` can be woken by its children, has one to wait for, and none that is
      already there to be reaped, except for `woken` that is about to be woken up. */
  ghost predicate Waits(tasks: map<nat, Task>, woken: nat) {
    forall p | p in tasks && Asleep(tasks[p]) ::
      && tasks[p].waiting && tasks[p].state == Interruptible && HasChildFor(tasks, p, tasks[p].at.pid)
      && (p != woken ==> NoZombieFor(tasks, p, tasks[p].at.pid))
  }

  ghost predicate Inv(s: State) {
    && Family(s.tasks, s.next, IDLE) && Queue(s.tasks, s.runnable, s.current) && Waits(s.tasks, IDLE)
    && Alive(s, s.current) && s.tasks[s.current].state == Running
  }

  /** Between two points of a step: the running task may have changed its state. */
  ghost predicate Midway(s: State, exiting: nat, woken: nat) {
    Family(s.tasks, s.next, exiting) && Queue(s.tasks, s.runnable, s.current) && Waits(s.tasks, woken)
  }

  // ----- Scheduling (src/task/task.c:207-262 and 566-587) -----

  /** `schedule`, one pass. */
  function Schedule(s: State): State
    requires s.current in s.tasks
  {
    var runs := s.tasks[s.current].state == Running;
    var next := if s.runnable != [] then s.runnable[0] else if runs then s.current else IDLE;
    var rest := if s.runnable != [] then s.runnable[1..] else [];
    var queue := if next != s.current && s.current != IDLE && runs && s.current !in rest then rest + [s.current] else rest;
    s.(runnable := queue, current := next)
  }

  lemma ScheduleKeepsInv(s: State)
    requires Midway(s, IDLE, IDLE)
    ensures Inv(Schedule(s)) && Schedule(s).tasks == s.tasks
  {
    var r := Schedule(s);
    if s.runnable != [] {
      assert s.runnable == [s.runnable[0]] + s.runnable[1..];
      assert s.runnable[0] in s.runnable;
      assert forall t :: t in s.runnable <==> t == s.runnable[0] || t in s.runnable[1..];
    }
  }

  predicate CanWake(s: State, t: nat) {
    t in s.tasks && (s.tasks[t].state == Interruptible || s.tasks[t].state == Uninterruptible)
  }

  /** `wakeUpTask` with the default mask. */
  function Wake(s: State, t: nat): State {
    if CanWake(s, t) then
      s.(tasks := s.tasks[t := s.tasks[t].(state := Running)],
         runnable := if t in s.runnable then s.runnable else [t] + s.runnable)
    else s
  }

  /** Only states, flags and codes differ, and no task became a zombie. */
  ghost predicate SameTree(a: map<nat, Task>, b: map<nat, Task>) {
    && a.Keys == b.Keys
    && forall t | t in a && t in b ::
         && b[t].parent == a[t].parent && b[t].children == a[t].children
         && (b[t].state == Zombie ==> a[t].state == Zombie) && (a[t].state == Running ==> b[t].state == Running || t != IDLE)
  }

  lemma SameTreeKeepsFamily(a: map<nat, Task>, b: map<nat, Task>, next: nat, exiting: nat)
    requires Family(a, next, exiting) && SameTree(a, b)
    ensures Family(b, next, exiting)
  {
    forall t | t in b
      ensures ChildrenOk(b, t) && (t != IDLE ==> ParentOk(b, t, exiting))
    {
      assert ChildrenOk(a, t) && (t != IDLE ==> ParentOk(a, t, exiting));
    }
  }

  lemma WakeKeepsFamily(s: State, t: nat, exiting: nat)
    requires Family(s.tasks, s.next, exiting)
    ensures Family(Wake(s, t).tasks, s.next, exiting)
  {
    SameTreeKeepsFamily(s.tasks, Wake(s, t).tasks, s.next, exiting);
  }

  lemma WakeKeepsQueue(s: State, t: nat)
    requires Queue(s.tasks, s.runnable, s.current) && t != s.current && (t == IDLE ==> !CanWake(s, t))
    ensures Queue(Wake(s, t).tasks, Wake(s, t).runnable, s.current)
  {
    if CanWake(s, t) {
      assert forall x :: x in [t] + s.runnable <==> x == t || x in s.runnable;
    }
  }

  lemma WakeKeepsWaits(s: State, t: nat, woken: nat)
    requires Waits(s.tasks, woken) && (woken == t || woken == IDLE)
    ensures Waits(Wake(s, t).tasks, IDLE)
  {
    var r := Wake(s, t);
    forall p | p in r.tasks && Asleep(r.tasks[p])
      ensures r.tasks[p].waiting && r.tasks[p].state == Interruptible && HasChildFor(r.tasks, p, r.tasks[p].at.pid)
      ensures p != IDLE ==> NoZombieFor(r.tasks, p, r.tasks[p].at.pid)
    {
      assert r.tasks[p] == s.tasks[p] && Asleep(s.tasks[p]);
      assert p == t ==> !CanWake(s, t);
      if p != IDLE {
        assert NoZombieFor(s.tasks, p, s.tasks[p].at.pid);
      }
    }
  }

  // ----- doFork (src/task/task.c:288-353) -----

  function AddChild(s: State): State
    requires s.current in s.tasks
  {
    var child := Task(Uninterruptible, s.current, [], false, 0, Elsewhere);
    var me := s.tasks[s.current];
    s.(tasks := s.tasks[s.next := child][s.current := me.(children := [s.next] + me.children)], next := s.next + 1)
  }

  function Fork(s: State): State
    requires s.current in s.tasks
  {
    Wake(AddChild(s), s.next)
  }

  lemma AddChildKeepsFamily(s: State)
    requires Family(s.tasks, s.next, IDLE) && s.current in s.tasks && s.tasks[s.current].state == Running
    ensures Family(AddChild(s).tasks, s.next + 1, IDLE)
  {
    var a, b, n := s.tasks, AddChild(s).tasks, s.next;
    assert n !in a;
    forall t | t in b
      ensures ChildrenOk(b, t) && (t != IDLE ==> ParentOk(b, t, IDLE))
    {
      if t != n {
        assert ChildrenOk(a, t) && (t != IDLE ==> ParentOk(a, t, IDLE));
        if t == s.current {
          assert b[t].children == [n] + a[t].children && n !in a[t].children;
        }
      } else {
        assert b[s.current].children[0] == n;
      }
    }
  }

  lemma ForkKeepsInv(s: State)
    requires Inv(s)
    ensures Inv(Fork(s))
  {
    var m := AddChild(s);
    var n := s.next;
    AddChildKeepsFamily(s);
    assert n !in s.tasks && n !in s.runnable;
    forall p | p in m.tasks && Asleep(m.tasks[p])
      ensures m.tasks[p] == s.tasks[p] && ChildrenOk(s.tasks, p) && p != IDLE && NoZombieFor(m.tasks, p, m.tasks[p].at.pid)
    {
      assert p != n && p != s.current;
      assert ChildrenOk(s.tasks, p) && NoZombieFor(s.tasks, p, s.tasks[p].at.pid);
    }
    WakeKeepsFamily(m, n, IDLE);
    WakeKeepsQueue(m, n);
    WakeKeepsWaits(m, n, IDLE);
  }

  // ----- doExit (src/task/task.c:364-391) -----

  function MarkZombie(s: State, code: int): State
    requires s.current in s.tasks
  {
    s.(tasks := s.tasks[s.current := s.tasks[s.current].(state := Zombie, exitCode := code)])
  }

  /** The first child of the exiting task goes to its parent. */
  predicate CanAdopt(s: State) {
    && s.current in s.tasks && s.tasks[s.current].children != []
    && s.tasks[s.current].parent in s.tasks && s.tasks[s.current].children[0] in s.tasks
  }

  function Adopt(s: State): State
    requires CanAdopt(s)
  {
    var me := s.tasks[s.current];
    var h, g := me.children[0], me.parent;
    s.(tasks := s.tasks[s.current := me.(children := me.children[1..])]
                       [g := s.tasks[g].(children := [h] + s.tasks[g].children)]
                       [h := s.tasks[h].(parent := g)])
  }

  /** What holds from the moment the running task became a zombie. */
  ghost predicate Exiting(s: State) {
    && s.current in s.tasks && s.current != IDLE && s.tasks[s.current].state == Zombie && s.tasks[s.current].at.Elsewhere?
    && Midway(s, s.current, s.tasks[s.current].parent)
  }

  lemma MarkZombieExits(s: State, code: int)
    requires Inv(s) && s.current != IDLE && s.tasks[s.current].at.Elsewhere?
    ensures Exiting(MarkZombie(s, code))
  {
    var a, b, me := s.tasks, MarkZombie(s, code).tasks, s.current;
    ZombieKeepsFamily(s, code);
    assert ParentOk(a, me, IDLE);
    forall p | p in b && Asleep(b[p]) && p != a[me].parent
      ensures b[p] == a[p] && NoZombieFor(b, p, b[p].at.pid)
    {
      assert ChildrenOk(a, p) && NoZombieFor(a, p, a[p].at.pid);
    }
  }

  lemma ZombieKeepsFamily(s: State, code: int)
    requires Inv(s) && s.current != IDLE
    ensures Family(MarkZombie(s, code).tasks, s.next, s.current)
  {
    var a, b, me := s.tasks, MarkZombie(s, code).tasks, s.current;
    forall t | t in b
      ensures ChildrenOk(b, t) && (t != IDLE ==> ParentOk(b, t, me))
    {
      assert ChildrenOk(a, t) && (t != IDLE ==> ParentOk(a, t, IDLE));
    }
  }

  lemma FirstChild(s: State)
    requires Exiting(s) && s.tasks[s.current].children != []
    ensures CanAdopt(s) && s.tasks[s.current].parent < s.current < s.tasks[s.current].children[0]
    ensures var h := s.tasks[s.current].children[0]; h != IDLE && ParentOk(s.tasks, h, s.current) && s.tasks[h].parent == s.current
    ensures s.tasks[s.tasks[s.current].parent].state != Zombie
  {
    var a, me := s.tasks, s.current;
    assert ParentOk(a, me, me) && ChildrenOk(a, me);
    var h := a[me].children[0];
    assert h in a[me].children;
    assert ParentOk(a, h, me);
  }

  lemma AdoptKeepsChildren(s: State, t: nat)
    requires Exiting(s) && s.tasks[s.current].children != [] && CanAdopt(s) && t in s.tasks
    ensures ChildrenOk(Adopt(s).tasks, t)
  {
    FirstChild(s);
    var a, b, me := s.tasks, Adopt(s).tasks, s.current;
    var h, g := a[me].children[0], a[me].parent;
    assert ChildrenOk(a, t) && ChildrenOk(a, me) && ChildrenOk(a, g);
    assert a[me].children == [h] + a[me].children[1..];
    if t == g {
      assert b[g].children == [h] + a[g].children && h !in a[g].children;
    }
  }

  lemma AdoptKeepsParent(s: State, t: nat)
    requires Exiting(s) && s.tasks[s.current].children != [] && CanAdopt(s) && t in s.tasks && t != IDLE
    ensures ParentOk(Adopt(s).tasks, t, s.current)
  {
    FirstChild(s);
    var a, b, me := s.tasks, Adopt(s).tasks, s.current;
    var h, g := a[me].children[0], a[me].parent;
    assert ParentOk(a, t, me);
    assert a[me].children == [h] + a[me].children[1..];
    if t == h {
      assert b[g].children[0] == h;
    }
  }

  lemma AdoptKeepsFamily(s: State)
    requires Exiting(s) && s.tasks[s.current].children != []
    ensures CanAdopt(s) && Family(Adopt(s).tasks, s.next, s.current)
  {
    FirstChild(s);
    assert Adopt(s).tasks.Keys == s.tasks.Keys;
    forall t | t in Adopt(s).tasks
      ensures ChildrenOk(Adopt(s).tasks, t) && (t != IDLE ==> ParentOk(Adopt(s).tasks, t, s.current))
    {
      AdoptKeepsChildren(s, t);
      if t != IDLE {
        AdoptKeepsParent(s, t);
      }
    }
  }

  lemma AdoptKeepsExiting(s: State)
    requires Exiting(s) && s.tasks[s.current].children != []
    ensures CanAdopt(s) && Exiting(Adopt(s)) && |Adopt(s).tasks[s.current].children| == |s.tasks[s.current].children| - 1
    ensures Adopt(s).current == s.current
  {
    AdoptKeepsFamily(s);
    FirstChild(s);
    AdoptKeepsWaits(s);
  }

  lemma AdoptKeepsWaits(s: State)
    requires Exiting(s) && s.tasks[s.current].children != [] && CanAdopt(s)
    ensures Waits(Adopt(s).tasks, s.tasks[s.current].parent)
  {
    FirstChild(s);
    forall p | p in Adopt(s).tasks && Asleep(Adopt(s).tasks[p]) {
      AdoptKeepsSleeper(s, p);
    }
  }

  lemma AdoptKeepsSleeper(s: State, p: nat)
    requires Exiting(s) && s.tasks[s.current].children != [] && CanAdopt(s)
    requires p in Adopt(s).tasks && Asleep(Adopt(s).tasks[p])
    ensures var a, b := s.tasks, Adopt(s).tasks;
            && p in a && Asleep(a[p]) && b[p].at == a[p].at && b[p].waiting == a[p].waiting && b[p].state == a[p].state
            && HasChildFor(b, p, b[p].at.pid)
            && (p != a[s.current].parent ==> NoZombieFor(b, p, b[p].at.pid))
  {
    FirstChild(s);
    var a, b, me := s.tasks, Adopt(s).tasks, s.current;
    assert p != me;
    var c :| c in a[p].children && Matches(a[p].at.pid, c);
    assert c in b[p].children;
    if p != a[me].parent {
      assert ChildrenOk(a, p) && NoZombieFor(a, p, a[p].at.pid);
    }
  }

  /** The loop over the children. */
  ghost function AdoptAll(s: State): (r: State)
    requires Exiting(s)
    ensures Exiting(r) && r.current == s.current && r.tasks[r.current].children == []
    ensures r.next == s.next && r.tasks.Keys == s.tasks.Keys
    decreases |s.tasks[s.current].children|
  {
    if s.tasks[s.current].children == [] then s
    else
      AdoptKeepsExiting(s);
      AdoptAll(Adopt(s))
  }

  /** The end of `doExit`: the parent is woken if it waits. */
  function WakeParent(s: State): State
    requires s.current in s.tasks && s.tasks[s.current].parent in s.tasks
  {
    var g := s.tasks[s.current].parent;
    if s.tasks[g].waiting then Wake(s, g) else s
  }

  lemma WakeParentEndsExit(s: State)
    requires Exiting(s) && s.tasks[s.current].children == []
    ensures s.tasks[s.current].parent in s.tasks
    ensures Midway(WakeParent(s), IDLE, IDLE) && WakeParent(s).current == s.current && Inv(Schedule(WakeParent(s)))
  {
    var a, me := s.tasks, s.current;
    assert ParentOk(a, me, me);
    var g := a[me].parent;
    forall t | t in a && t != IDLE
      ensures ParentOk(a, t, IDLE)
    {
      assert ParentOk(a, t, me);
    }
    assert Family(a, s.next, IDLE);
    if a[g].waiting {
      WakeKeepsFamily(s, g, IDLE);
      WakeKeepsQueue(s, g);
      WakeKeepsWaits(s, g, g);
    } else {
      assert !Asleep(a[g]);
    }
    ScheduleKeepsInv(WakeParent(s));
  }

  ghost function Exit(s: State, code: int): State
    requires Inv(s) && s.current != IDLE && s.tasks[s.current].at.Elsewhere?
  {
    MarkZombieExits(s, code);
    var z := AdoptAll(MarkZombie(s, code));
    WakeParentEndsExit(z);
    Schedule(WakeParent(z))
  }

  function Reversed(s: seq<nat>): seq<nat> {
    if s == [] then [] else Reversed(s[1..]) + [s[0]]
  }

  /** A task after the children of `me` have gone to its parent `g`, the last one to the front. */
  function HandedOver(s: State, me: nat, g: nat, t: nat): Task
    requires me in s.tasks && t in s.tasks
  {
    if t == me then s.tasks[t].(children := [])
    else s.tasks[t].(
      parent := if t in s.tasks[me].children then g else s.tasks[t].parent,
      children := if t == g then Reversed(s.tasks[me].children) + s.tasks[t].children else s.tasks[t].children)
  }

  lemma HandOverOne(s: State, t: nat)
    requires CanAdopt(s) && NoDup(s.tasks[s.current].children) && t in s.tasks
    requires var g, h := s.tasks[s.current].parent, s.tasks[s.current].children[0]; g != s.current && h != s.current && h != g
    ensures t in Adopt(s).tasks && Adopt(s).tasks[s.current].parent == s.tasks[s.current].parent
    ensures var me, g := s.current, s.tasks[s.current].parent; HandedOver(Adopt(s), me, g, t) == HandedOver(s, me, g, t)
  {
    var me, g := s.current, s.tasks[s.current].parent;
    var cs := s.tasks[me].children;
    assert cs == [cs[0]] + cs[1..];
    if t == g {
      assert Reversed(cs[1..]) + ([cs[0]] + s.tasks[g].children) == Reversed(cs) + s.tasks[g].children;
    }
  }

  lemma {:induction false} AdoptAllHandsOver(s: State)
    requires Exiting(s)
    ensures AdoptAll(s) == s.(tasks := AdoptAll(s).tasks)
    ensures forall t | t in s.tasks :: AdoptAll(s).tasks[t] == HandedOver(s, s.current, s.tasks[s.current].parent, t)
    decreases |s.tasks[s.current].children|
  {
    if s.tasks[s.current].children != [] {
      FirstChild(s);
      assert ChildrenOk(s.tasks, s.current);
      AdoptKeepsExiting(s);
      AdoptAllHandsOver(Adopt(s));
      forall t | t in s.tasks {
        HandOverOne(s, t);
      }
    } else {
      assert forall t | t in s.tasks :: Reversed([]) + s.tasks[t].children == s.tasks[t].children;
    }
  }

  /** What an exit with `code` leaves: a zombie with that code and without children, its parent with all of
      these, awake if it waited, and the processor with the first task in the queue or else with the idle task. */
  ghost predicate Exited(s: State, code: int, r: State)
    requires s.current in s.tasks && s.tasks[s.current].parent in s.tasks
  {
    var me, g := s.current, s.tasks[s.current].parent;
    var wakes := s.tasks[g].waiting && (s.tasks[g].state == Interruptible || s.tasks[g].state == Uninterruptible);
    var queue := if wakes && g !in s.runnable then [g] + s.runnable else s.runnable;
    && r.next == s.next && r.tasks.Keys == s.tasks.Keys
    && r.tasks[me] == s.tasks[me].(state := Zombie, exitCode := code, children := [])
    && (forall t | t in s.tasks && t != me ::
          r.tasks[t] == HandedOver(s, me, g, t).(state := if t == g && wakes then Running else s.tasks[t].state))
    && (if queue == [] then r.current == 0 && r.runnable == [] else r.current == queue[0] && r.runnable == queue[1..])
  }

  lemma ParentWakes(s: State)
    requires s.current in s.tasks && s.tasks[s.current].state == Zombie
    requires s.tasks[s.current].parent in s.tasks && s.tasks[s.current].parent != s.current
    ensures var g, r := s.tasks[s.current].parent, Schedule(WakeParent(s));
            var wakes := s.tasks[g].waiting && (s.tasks[g].state == Interruptible || s.tasks[g].state == Uninterruptible);
            var queue := if wakes && g !in s.runnable then [g] + s.runnable else s.runnable;
            && r.next == s.next && r.tasks == (if wakes then s.tasks[g := s.tasks[g].(state := Running)] else s.tasks)
            && (if queue == [] then r.current == 0 && r.runnable == [] else r.current == queue[0] && r.runnable == queue[1..])
  {
  }

  /** After the loop over the children. */
  ghost predicate ZombieAlone(s: State, code: int, a: State)
    requires s.current in s.tasks
  {
    var me, g := s.current, s.tasks[s.current].parent;
    && a == s.(tasks := a.tasks) && a.tasks.Keys == s.tasks.Keys
    && a.tasks[me] == s.tasks[me].(state := Zombie, exitCode := code, children := [])
    && forall t | t in s.tasks && t != me :: a.tasks[t] == HandedOver(s, me, g, t)
  }

  lemma ZombieHandsOver(s: State, code: int)
    requires s.current in s.tasks && s.tasks[s.current].parent != s.current && Exiting(MarkZombie(s, code))
    ensures ZombieAlone(s, code, AdoptAll(MarkZombie(s, code)))
  {
    var me, g, z := s.current, s.tasks[s.current].parent, MarkZombie(s, code);
    AdoptAllHandsOver(z);
    assert AdoptAll(z).tasks[me] == HandedOver(z, me, g, me);
    forall t | t in s.tasks && t != me
      ensures AdoptAll(z).tasks[t] == HandedOver(s, me, g, t)
    {
      assert HandedOver(z, me, g, t) == HandedOver(s, me, g, t);
    }
  }

  lemma AloneEndsExited(s: State, code: int, a: State)
    requires s.current in s.tasks && s.tasks[s.current].parent in s.tasks && s.tasks[s.current].parent != s.current
    requires ZombieAlone(s, code, a)
    ensures Exited(s, code, Schedule(WakeParent(a)))
  {
    ParentWakes(a);
  }

  lemma ExitExits(s: State, code: int)
    requires Inv(s) && s.current != IDLE && s.tasks[s.current].at.Elsewhere?
    ensures s.tasks[s.current].parent in s.tasks && Exited(s, code, Exit(s, code))
  {
    assert ParentOk(s.tasks, s.current, IDLE);
    MarkZombieExits(s, code);
    ZombieHandsOver(s, code);
    var a := AdoptAll(MarkZombie(s, code));
    AloneEndsExited(s, code, a);
    WakeParentEndsExit(a);
  }

  // ----- doWaitPID (src/task/task.c:402-443), from the label `retry` -----

  datatype Outcome = Reaped(pid: nat, exitCode: int) | NoChild | TimedOut | Blocked

  predicate IsZombieFor(s: State, pid: nat, c: nat) {
    Matches(pid, c) && c in s.tasks && s.tasks[c].state == Zombie
  }

  /** The running task reaps its child `c`. */
  function Reap(s: State, c: nat): State
    requires s.current in s.tasks
  {
    var me := s.tasks[s.current];
    s.(tasks := (s.tasks - {c})[s.current := me.(waiting := false, children := Without(me.children, c), at := Elsewhere)])
  }

  lemma ReapKeepsFamily(s: State, c: nat)
    requires Family(s.tasks, s.next, IDLE) && s.current in s.tasks && c in s.tasks[s.current].children
    requires c in s.tasks && s.tasks[c].state == Zombie && c != s.current
    ensures Family(Reap(s, c).tasks, s.next, IDLE)
  {
    var a, b, me := s.tasks, Reap(s, c).tasks, s.current;
    assert ChildrenOk(a, me) && ParentOk(a, c, IDLE);
    WithoutMembers(a[me].children, c);
    forall t | t in b
      ensures ChildrenOk(b, t) && (t != IDLE ==> ParentOk(b, t, IDLE))
    {
      assert ChildrenOk(a, t) && (t != IDLE ==> ParentOk(a, t, IDLE));
      forall x | x in b[t].children
        ensures x in b && x != IDLE && b[x].parent == t
      {
        assert x in a[t].children;
      }
    }
  }

  lemma ReapKeepsInv(s: State, c: nat)
    requires Inv(s) && c in s.tasks[s.current].children && c in s.tasks && s.tasks[c].state == Zombie
    ensures Inv(Reap(s, c)) && c !in Reap(s, c).tasks
  {
    var a, b, me := s.tasks, Reap(s, c).tasks, s.current;
    ReapKeepsFamily(s, c);
    forall p | p in b && Asleep(b[p])
      ensures b[p] == a[p] && p != IDLE && NoZombieFor(b, p, b[p].at.pid)
    {
      assert NoZombieFor(a, p, a[p].at.pid);
    }
  }

  /** The running task goes to sleep waiting for a child. */
  function Block(s: State, pid: nat): State
    requires s.current in s.tasks
  {
    s.(tasks := s.tasks[s.current := s.tasks[s.current].(state := Interruptible, waiting := true, at := InWait(pid))])
  }

  lemma BlockKeepsInv(s: State, pid: nat)
    requires Inv(s) && s.current != IDLE && HasChildFor(s.tasks, s.current, pid) && NoZombieFor(s.tasks, s.current, pid)
    ensures Midway(Block(s, pid), IDLE, IDLE) && Inv(Schedule(Block(s, pid)))
  {
    var a, b, me := s.tasks, Block(s, pid).tasks, s.current;
    SameTreeKeepsFamily(a, b, s.next, IDLE);
    forall p | p in b && Asleep(b[p])
      ensures HasChildFor(b, p, b[p].at.pid) && p != IDLE && NoZombieFor(b, p, b[p].at.pid)
    {
      if p != me {
        assert NoZombieFor(a, p, a[p].at.pid) && HasChildFor(a, p, a[p].at.pid);
      }
      var c :| c in a[p].children && Matches(b[p].at.pid, c);
      assert c in b[p].children;
    }
    ScheduleKeepsInv(Block(s, pid));
  }

  /** The place of the first zombie the running task looks for among `cs`. */
  function FirstZombie(s: State, cs: seq<nat>, pid: nat): (k: nat)
    ensures k <= |cs| && (k < |cs| ==> IsZombieFor(s, pid, cs[k]))
    ensures forall i | 0 <= i < k :: !IsZombieFor(s, pid, cs[i])
  {
    if cs == [] || IsZombieFor(s, pid, cs[0]) then 0 else 1 + FirstZombie(s, cs[1..], pid)
  }

  /** One pass of `doWaitPID`, up to the return or to the switch to another task. */
  function WaitPid(s: State, pid: nat, nowait: bool): (r: (State, Outcome))
    requires s.current in s.tasks
  {
    var cs := s.tasks[s.current].children;
    var k := FirstZombie(s, cs, pid);
    var has := exists c :: c in cs && Matches(pid, c);
    if k < |cs| then (Reap(s, cs[k]), Reaped(cs[k], s.tasks[cs[k]].exitCode))
    else if has && !nowait then (Schedule(Block(s, pid)), Blocked)
    else (Leave(s, false), if has then TimedOut else NoChild)
  }

  lemma NoneFound(s: State, pid: nat)
    requires Inv(s) && s.current != IDLE && HasChildFor(s.tasks, s.current, pid)
    requires FirstZombie(s, s.tasks[s.current].children, pid) == |s.tasks[s.current].children|
    ensures Midway(Block(s, pid), IDLE, IDLE)
  {
    var cs := s.tasks[s.current].children;
    forall c | c in cs && c in s.tasks && Matches(pid, c)
      ensures s.tasks[c].state != Zombie
    {
      var i :| 0 <= i < |cs| && cs[i] == c;
      assert !IsZombieFor(s, pid, cs[i]);
    }
    BlockKeepsInv(s, pid);
  }

  lemma WaitKeepsInv(s: State, pid: nat, nowait: bool)
    requires Inv(s) && s.current != IDLE
    ensures Inv(WaitPid(s, pid, nowait).0)
  {
    var cs := s.tasks[s.current].children;
    var k := FirstZombie(s, cs, pid);
    if k < |cs| {
      ReapKeepsInv(s, cs[k]);
    } else {
      if HasChildFor(s.tasks, s.current, pid) && !nowait {
        NoneFound(s, pid);
        ScheduleKeepsInv(Block(s, pid));
      }
      LeaveKeepsInv(s, false);
    }
  }

  /** The running task leaves the wait loop; `waiting` may stay set after a signal. */
  function Leave(s: State, waiting: bool): State
    requires s.current in s.tasks
  {
    s.(tasks := s.tasks[s.current := s.tasks[s.current].(waiting := waiting, at := Elsewhere)])
  }

  lemma LeaveKeepsInv(s: State, waiting: bool)
    requires Inv(s)
    ensures Inv(Leave(s, waiting))
  {
    var a, b := s.tasks, Leave(s, waiting).tasks;
    SameTreeKeepsFamily(a, b, s.next, IDLE);
    OthersWait(a, b, s.current);
  }

  /** Waits of the other tasks do not depend on the running one unless it is a child that becomes a zombie. */
  lemma OthersWait(a: map<nat, Task>, b: map<nat, Task>, me: nat)
    requires Waits(a, IDLE) && IDLE in a && a[IDLE].state == Running && me in a && me in b && b == a[me := b[me]] && b[me].state != Zombie
    requires !Asleep(b[me])
    ensures Waits(b, IDLE)
  {
    forall p | p in b && Asleep(b[p])
      ensures b[p] == a[p] && HasChildFor(b, p, b[p].at.pid) && p != IDLE && NoZombieFor(b, p, b[p].at.pid)
    {
      assert NoZombieFor(a, p, a[p].at.pid) && HasChildFor(a, p, a[p].at.pid);
      var c :| c in a[p].children && Matches(a[p].at.pid, c);
      assert c in b[p].children;
    }
  }

  /** The running task goes to sleep for another reason. */
  function Sleep(s: State, kind: Run): State
    requires s.current in s.tasks
  {
    s.(tasks := s.tasks[s.current := s.tasks[s.current].(state := kind)])
  }

  lemma SleepKeepsInv(s: State, kind: Run)
    requires Inv(s) && s.current != IDLE && s.tasks[s.current].at.Elsewhere? && (kind == Interruptible || kind == Uninterruptible)
    ensures Inv(Schedule(Sleep(s, kind)))
  {
    var a, b := s.tasks, Sleep(s, kind).tasks;
    SameTreeKeepsFamily(a, b, s.next, IDLE);
    OthersWait(a, b, s.current);
    ScheduleKeepsInv(Sleep(s, kind));
  }

  lemma WakeKeepsInv(s: State, t: nat)
    requires Inv(s)
    ensures Inv(Wake(s, t))
  {
    WakeKeepsFamily(s, t, IDLE);
    if t != s.current {
      WakeKeepsQueue(s, t);
    }
    WakeKeepsWaits(s, t, IDLE);
  }

  predicate IsFor(pid: nat, c: nat) {
    pid == 0 || pid == c
  }

  /** What one pass of `doWaitPID` leaves: the first zombie it can take is gone and has passed on its code; the
      caller sleeps if there is none yet, unless it does not want to; else nothing happens. */
  ghost predicate Waited(s: State, pid: nat, nowait: bool, r: State, outcome: Outcome)
    requires s.current in s.tasks
  {
    var me := s.tasks[s.current];
    match outcome
    case Reaped(c, code) =>
      exists k | 0 <= k < |me.children| ::
        && me.children[k] == c && IsFor(pid, c) && c in s.tasks && s.tasks[c].state == Zombie && s.tasks[c].exitCode == code
        && (forall i | 0 <= i < k && IsFor(pid, me.children[i]) :: Alive(s, me.children[i]))
        && r == s.(tasks := (s.tasks - {c})[s.current := me.(waiting := false, at := Elsewhere, children := me.children[..k] + me.children[k + 1..])])
    case NoChild =>
      && (forall c | c in me.children :: !IsFor(pid, c))
      && r == s.(tasks := s.tasks[s.current := me.(waiting := false, at := Elsewhere)])
    case TimedOut =>
      && nowait && NoneYet(s, me.children, pid) && r == s.(tasks := s.tasks[s.current := me.(waiting := false, at := Elsewhere)])
    case Blocked =>
      && !nowait && NoneYet(s, me.children, pid) && r.next == s.next
      && r.tasks == s.tasks[s.current := me.(state := Interruptible, waiting := true, at := InWait(pid))]
      && if s.runnable == [] then r.current == 0 && r.runnable == [] else r.current == s.runnable[0] && r.runnable == s.runnable[1..]
  }

  /** There is a child to wait for, and none of them has exited. */
  ghost predicate NoneYet(s: State, children: seq<nat>, pid: nat) {
    (exists c :: c in children && IsFor(pid, c)) && forall c | c in children && IsFor(pid, c) :: Alive(s, c)
  }

  lemma WaitWaits(s: State, pid: nat, nowait: bool)
    requires Inv(s)
    ensures Waited(s, pid, nowait, WaitPid(s, pid, nowait).0, WaitPid(s, pid, nowait).1)
  {
    var cs := s.tasks[s.current].children;
    var k := FirstZombie(s, cs, pid);
    assert ChildrenOk(s.tasks, s.current);
    forall i | 0 <= i < |cs| && IsFor(pid, cs[i])
      ensures Matches(pid, cs[i]) && (i < k ==> Alive(s, cs[i]))
    {
      assert cs[i] in cs;
      assert i < k ==> !IsZombieFor(s, pid, cs[i]);
    }
    if k < |cs| {
      WithoutCuts(cs, k);
    }
  }

  // ----- Yielding -----

  /** The running task yields `n` times, or whoever runs by then. */
  ghost function Yields(s: State, n: nat): (r: State)
    requires Inv(s)
    ensures Inv(r)
  {
    if n == 0 then s
    else
      var m := Yields(s, n - 1);
      ScheduleKeepsInv(m);
      Schedule(m)
  }

  function Ring(s: State): (all: seq<nat>)
    ensures |all| == |s.runnable| + 1
  {
    [s.current] + s.runnable
  }

  lemma ScheduleTurns(s: State)
    requires Inv(s) && s.current != IDLE
    ensures var r := Schedule(s);
            r.tasks == s.tasks && r.next == s.next && r.current != IDLE && Ring(r) == Ring(s)[1..] + [Ring(s)[0]]
  {
    if s.runnable != [] {
      assert s.runnable[0] in s.runnable;
      assert Ring(Schedule(s)) == [s.runnable[0]] + (s.runnable[1..] + [s.current]);
    }
  }

  lemma TurnOnce(all: seq<nat>, turned: seq<nat>, n: nat)
    requires n < |all| && turned == all[n..] + all[..n]
    ensures turned[1..] + [turned[0]] == all[n + 1..] + all[..n + 1]
  {
    assert turned[1..] == all[n + 1..] + all[..n];
  }

  /** The running task and the queue behind it have turned by `n` places. */
  ghost predicate Turned(s: State, r: State, n: nat) {
    && r.tasks == s.tasks && r.next == s.next && r.current != IDLE && n <= |s.runnable| + 1
    && var all := [s.current] + s.runnable; [r.current] + r.runnable == all[n..] + all[..n]
  }

  lemma TurnedOnce(s: State, m: State, n: nat)
    requires Inv(m) && Turned(s, m, n) && n <= |s.runnable|
    ensures Turned(s, Schedule(m), n + 1)
  {
    ScheduleTurns(m);
    TurnOnce(Ring(s), Ring(m), n);
  }

  /** Yielding goes round: after `n` rounds the task at place `n` runs, and after one more than the queue is
      long all is as before. */
  lemma {:induction false} YieldsGoRound(s: State, n: nat)
    requires Inv(s) && s.current != IDLE && n <= |s.runnable| + 1
    ensures Turned(s, Yields(s, n), n)
  {
    if n > 0 {
      YieldsGoRound(s, n - 1);
      TurnedOnce(s, Yields(s, n - 1), n - 1);
    } else {
      assert Ring(s)[0..] + Ring(s)[..0] == Ring(s);
    }
  }

  // ----- Every run -----

  datatype Step =
    | ForkStep
    | ExitStep(code: int)
    | WaitStep(pid: nat, nowait: bool)
    | SignalStep
    | YieldStep
    | SleepStep(kind: Run)
    | WakeStep(task: nat)

  /** What the running task, or an interrupt it takes, can do. In the wait loop it only tries again or gives up. */
  ghost predicate Enabled(s: State, step: Step)
    requires Inv(s)
  {
    var at := s.tasks[s.current].at;
    match step
    case ForkStep => at.Elsewhere?
    case ExitStep(_) => at.Elsewhere? && s.current != IDLE
    case WaitStep(pid, nowait) => s.current != IDLE && (at.InWait? ==> at.pid == pid && !nowait)
    case SignalStep => at.InWait?
    case YieldStep => true
    case SleepStep(kind) => at.Elsewhere? && s.current != IDLE && (kind == Interruptible || kind == Uninterruptible)
    case WakeStep(_) => true
  }

  ghost function Do(s: State, step: Step): State
    requires Inv(s) && Enabled(s, step)
  {
    match step
    case ForkStep => Fork(s)
    case ExitStep(code) => Exit(s, code)
    case WaitStep(pid, nowait) => WaitPid(s, pid, nowait).0
    case SignalStep => Leave(s, s.tasks[s.current].waiting)
    case YieldStep => Schedule(s)
    case SleepStep(kind) => Schedule(Sleep(s, kind))
    case WakeStep(task) => Wake(s, task)
  }

  function InitialState(): State {
    State(map[IDLE := Task(Running, IDLE, [], false, 0, Elsewhere)], [], IDLE, 1)
  }

  lemma InitialInv()
    ensures Inv(InitialState())
  {
    var s := InitialState();
    assert ChildrenOk(s.tasks, IDLE);
  }

  lemma StepKeepsInv(s: State, step: Step)
    requires Inv(s) && Enabled(s, step)
    ensures Inv(Do(s, step))
  {
    match step
    case ForkStep => ForkKeepsInv(s);
    case ExitStep(code) =>
      MarkZombieExits(s, code);
      WakeParentEndsExit(AdoptAll(MarkZombie(s, code)));
    case WaitStep(pid, nowait) => WaitKeepsInv(s, pid, nowait);
    case SignalStep => LeaveKeepsInv(s, s.tasks[s.current].waiting);
    case YieldStep => ScheduleKeepsInv(s);
    case SleepStep(kind) => SleepKeepsInv(s, kind);
    case WakeStep(task) => WakeKeepsInv(s, task);
  }

  /** A zombie stays one, with its exit code, until it is reaped. */
  lemma StepKeepsZombie(s: State, step: Step, c: nat)
    requires Inv(s) && Enabled(s, step) && c in s.tasks && s.tasks[c].state == Zombie
    ensures var r := Do(s, step); c in r.tasks ==> r.tasks[c].state == Zombie && r.tasks[c].exitCode == s.tasks[c].exitCode
  {
    match step
    case ExitStep(code) => ExitExits(s, code);
    case WaitStep(pid, nowait) => WaitWaits(s, pid, nowait);
    case _ =>
  }

  ghost predicate Takes(s: State, step: Step, r: State) {
    Inv(s) ==> Enabled(s, step) && r == Do(s, step)
  }

  ghost predicate Next(s: State, r: State) {
    exists step :: Takes(s, step, r)
  }

  ghost predicate Trace(run: seq<State>) {
    run != [] && run[0] == InitialState() && forall i | 0 <= i < |run| - 1 :: Next(run[i], run[i + 1])
  }

  lemma {:induction false} TraceInv(run: seq<State>, i: nat)
    requires Trace(run) && i < |run|
    ensures Inv(run[i])
  {
    if i == 0 {
      InitialInv();
    } else {
      TraceInv(run, i - 1);
      assert Next(run[i - 1], run[i]);
      var step :| Takes(run[i - 1], step, run[i]);
      StepKeepsInv(run[i - 1], step);
    }
  }

  /** In no reachable state does a task sleep in `doWaitPID` while a child it waits for is there to be
      reaped; it always has such a child alive, and that child will find it waiting. */
  lemma NoSleeperMissesZombie(run: seq<State>, i: nat, p: nat)
    requires Trace(run) && i < |run| && p in run[i].tasks && Asleep(run[i].tasks[p])
    ensures var t := run[i].tasks[p];
            && t.waiting && t.state == Interruptible
            && (forall c | c in t.children && Matches(t.at.pid, c) :: Alive(run[i], c) && run[i].tasks[c].parent == p)
            && (exists c :: c in t.children && Matches(t.at.pid, c))
  {
    TraceInv(run, i);
    assert ChildrenOk(run[i].tasks, p) && NoZombieFor(run[i].tasks, p, run[i].tasks[p].at.pid);
  }

  /** No runnable task is lost: in every reachable state each is running, idle or queued exactly once. */
  lemma RunnableIsQueued(run: seq<State>, i: nat, t: nat)
    requires Trace(run) && i < |run| && t in run[i].tasks && t != run[i].current && t != IDLE
    ensures t in run[i].runnable <==> run[i].tasks[t].state == Running
    ensures NoDup(run[i].runnable)
  {
    TraceInv(run, i);
  }

  /** In every reachable state the parent of a task is alive and lists it once. */
  lemma ParentsAlive(run: seq<State>, i: nat, t: nat)
    requires Trace(run) && i < |run| && t in run[i].tasks && t != IDLE
    ensures var p := run[i].tasks[t].parent; Alive(run[i], p) && t in run[i].tasks[p].children && NoDup(run[i].tasks[p].children)
  {
    TraceInv(run, i);
    var p := run[i].tasks[t].parent;
    assert ParentOk(run[i].tasks, t, IDLE) && ChildrenOk(run[i].tasks, p);
  }

  lemma StepKeys(s: State, step: Step)
    requires Inv(s) && Enabled(s, step)
    ensures s.next <= Do(s, step).next && forall t | t in Do(s, step).tasks :: t in s.tasks || t >= s.next
  {
    StepKeepsInv(s, step);
    match step
    case ExitStep(code) =>
      MarkZombieExits(s, code);
      WakeParentEndsExit(AdoptAll(MarkZombie(s, code)));
    case _ =>
  }

  /** A pid that was reaped never comes back, so no task is reaped twice. */
  lemma {:induction false} ReapedForGood(run: seq<State>, i: nat, j: nat, c: nat)
    requires Trace(run) && i <= j < |run| && c < run[i].next && c !in run[i].tasks
    ensures c !in run[j].tasks && c < run[j].next
  {
    if i < j {
      ReapedForGood(run, i, j - 1, c);
      TraceInv(run, j - 1);
      assert Next(run[j - 1], run[j]);
      var step :| Takes(run[j - 1], step, run[j]);
      StepKeys(run[j - 1], step);
    }
  }

  /** A run with the steps it takes. */
  ghost predicate Taken(run: seq<State>, steps: seq<Step>) {
    && |run| == |steps| + 1 && run[0] == InitialState()
    && forall i | 0 <= i < |steps| :: Takes(run[i], steps[i], run[i + 1])
  }

  lemma TakenIsTrace(run: seq<State>, steps: seq<Step>)
    requires Taken(run, steps)
    ensures Trace(run)
  {
    forall i | 0 <= i < |run| - 1
      ensures Next(run[i], run[i + 1])
    {
      assert Takes(run[i], steps[i], run[i + 1]);
    }
  }

  /** The task that runs exits with `code` in this step. */
  ghost predicate Exits(s: State, step: Step, c: nat, code: int) {
    step == ExitStep(code) && c == s.current
  }

  /** The task that runs reaps `c` in this step and gets the code `got`. */
  ghost predicate Reaps(s: State, step: Step, c: nat, got: int) {
    step.WaitStep? && s.current in s.tasks && WaitPid(s, step.pid, step.nowait).1 == Reaped(c, got)
  }

  /** From its exit on, a task is a zombie with its code, or gone for good. */
  lemma {:induction false} ExitCodeKept(run: seq<State>, steps: seq<Step>, i: nat, j: nat, c: nat, code: int)
    requires Taken(run, steps) && i < j < |run| && Exits(run[i], steps[i], c, code)
    ensures c < run[j].next
    ensures c in run[j].tasks ==> run[j].tasks[c].state == Zombie && run[j].tasks[c].exitCode == code
  {
    TakenIsTrace(run, steps);
    TraceInv(run, j - 1);
    assert Takes(run[j - 1], steps[j - 1], run[j]);
    StepKeys(run[j - 1], steps[j - 1]);
    if i == j - 1 {
      ExitExits(run[i], code);
    } else {
      ExitCodeKept(run, steps, i, j - 1, c, code);
      if c in run[j - 1].tasks {
        StepKeepsZombie(run[j - 1], steps[j - 1], c);
      }
    }
  }

  /** Whoever reaps a task, be it the parent that forked it or one it was handed to, gets the code it exited with. */
  lemma ExitCodeArrives(run: seq<State>, steps: seq<Step>, i: nat, j: nat, c: nat, code: int, got: int)
    requires Taken(run, steps) && i < j < |steps| && Exits(run[i], steps[i], c, code) && Reaps(run[j], steps[j], c, got)
    ensures got == code
  {
    ExitCodeKept(run, steps, i, j, c, code);
    TakenIsTrace(run, steps);
    TraceInv(run, j);
    WaitWaits(run[j], steps[j].pid, steps[j].nowait);
  }

  /** And only a task that has exited is ever reaped. */
  lemma OnlyExitedAreReaped(run: seq<State>, steps: seq<Step>, j: nat, c: nat, got: int)
    requires Taken(run, steps) && j < |steps| && Reaps(run[j], steps[j], c, got)
    ensures exists i | 0 <= i < j :: Exits(run[i], steps[i], c, got)
  {
    TakenIsTrace(run, steps);
    TraceInv(run, j);
    WaitWaits(run[j], steps[j].pid, steps[j].nowait);
    var i := WhenExited(run, steps, j, c);
    ExitCodeArrives(run, steps, i, j, c, steps[i].code, got);
  }

  lemma {:induction false} WhenExited(run: seq<State>, steps: seq<Step>, j: nat, c: nat) returns (i: nat)
    requires Taken(run, steps) && j < |run| && c in run[j].tasks && run[j].tasks[c].state == Zombie
    ensures i < j && steps[i].ExitStep? && Exits(run[i], steps[i], c, steps[i].code)
  {
    TakenIsTrace(run, steps);
    TraceInv(run, j - 1);
    assert Takes(run[j - 1], steps[j - 1], run[j]);
    if c in run[j - 1].tasks && run[j - 1].tasks[c].state == Zombie {
      i := WhenExited(run, steps, j - 1, c);
    } else {
      BecomesZombie(run[j - 1], steps[j - 1], c);
      i := j - 1;
    }
  }

  /** A task becomes a zombie only by exiting itself. */
  lemma BecomesZombie(s: State, step: Step, c: nat)
    requires Inv(s) && Enabled(s, step) && c in Do(s, step).tasks && Do(s, step).tasks[c].state == Zombie
    requires c in s.tasks ==> s.tasks[c].state != Zombie
    ensures step.ExitStep? && c == s.current
  {
    match step
    case ExitStep(code) => ExitExits(s, code);
    case WaitStep(pid, nowait) => WaitWaits(s, pid, nowait);
    case _ =>
  }
}
