/** Fork, exit and wait, src/task/task.c, for the running task. */
module Tasks {
  import opened Sets
  import opened TaskState

  class Kernel {
    var tasks: map<nat, Task>
    var runnable: seq<nat>
    var current: nat
    var next: nat

    ghost function Now(): State
      reads this
    {
      State(tasks, runnable, current, next)
    }

    /** `initTask`: only the idle task. */
    constructor ()
      ensures Now() == InitialState() && Inv(Now())
      ensures tasks.Keys == {0} && runnable == [] && current == 0 && next == 1
    {
      tasks := map[IDLE := Task(Running, IDLE, [], false, 0, Elsewhere)];
      runnable, current, next := [], IDLE, 1;
      new;
      InitialInv();
    }

    /** `schedule`, one pass; the caller has set the state of the running task. */
    method DoSchedule()
      requires Midway(Now(), IDLE, IDLE)
      modifies this
      ensures Now() == Schedule(old(Now())) && Inv(Now())
      ensures current == if old(runnable) != [] then old(runnable)[0] else if old(tasks[current].state == Running) then old(current) else 0
    {
      ScheduleKeepsInv(Now());
      var prev := current;
      var following := IDLE;
      if runnable != [] {
        following := runnable[0];
        runnable := runnable[1..];
      } else if tasks[prev].state == Running {
        following := prev;
      }
      if following == prev {
        return;
      }
      if prev != IDLE && tasks[prev].state == Running && prev !in runnable {
        runnable := runnable + [prev];
      }
      current := following;
    }

    /** `wakeUpTask` with the default mask. */
    method WakeUpTask(t: nat) returns (retval: int)
      modifies this
      ensures Now() == Wake(old(Now()), t) && retval == if old(CanWake(Now(), t)) then 0 else -22
      ensures retval == 0 <==> t in old(tasks) && (old(tasks)[t].state == Interruptible || old(tasks)[t].state == Uninterruptible)
      ensures retval == 0 ==> tasks == old(tasks)[t := old(tasks)[t].(state := Running)] && current == old(current) && next == old(next)
      ensures retval == 0 ==> runnable == if t in old(runnable) then old(runnable) else [t] + old(runnable)
      ensures retval != 0 ==> Now() == old(Now())
      ensures old(Inv(Now())) ==> Inv(Now())
    {
      if Inv(Now()) {
        WakeKeepsInv(Now(), t);
      }
      if t !in tasks || (tasks[t].state != Interruptible && tasks[t].state != Uninterruptible) {
        return -22;
      }
      tasks := tasks[t := tasks[t].(state := Running)];
      if t !in runnable {
        runnable := [t] + runnable;
      }
      retval := 0;
    }

    /** `doFork`, the part about tasks. */
    method DoFork() returns (pid: nat)
      requires Inv(Now()) && tasks[current].at.Elsewhere?
      modifies this
      ensures Now() == Fork(old(Now())) && Inv(Now()) && pid == old(next)
      ensures current == old(current) && next == pid + 1 && runnable == [pid] + old(runnable) && tasks.Keys == old(tasks.Keys) + {pid}
      ensures tasks[pid] == Task(Running, current, [], false, 0, Elsewhere)
      ensures tasks[current] == old(tasks[current]).(children := [pid] + old(tasks[current].children))
      ensures forall t | t in old(tasks) && t != current :: tasks[t] == old(tasks)[t]
    {
      ForkKeepsInv(Now());
      pid := next;
      var me := tasks[current];
      tasks := tasks[pid := Task(Uninterruptible, current, [], false, 0, Elsewhere)];
      tasks := tasks[current := me.(children := [pid] + me.children)];
      next := next + 1;
      assert Now() == AddChild(old(Now()));
      var woken := WakeUpTask(pid);
    }

    /** One round of the loop over the children of the exiting task. */
    method AdoptFirst()
      requires Exiting(Now()) && tasks[current].children != []
      modifies this
      ensures old(CanAdopt(Now())) && Now() == Adopt(old(Now()))
    {
      FirstChild(Now());
      var me := tasks[current];
      var child, parent := me.children[0], me.parent;
      tasks := tasks[current := me.(children := me.children[1..])];
      tasks := tasks[parent := tasks[parent].(children := [child] + tasks[parent].children)];
      tasks := tasks[child := tasks[child].(parent := parent)];
    }

    /** `doExit`. */
    method DoExit(code: int)
      requires Inv(Now()) && current != IDLE && tasks[current].at.Elsewhere?
      modifies this
      ensures Now() == Exit(old(Now()), code) && Inv(Now())
      ensures old(current) in tasks && tasks[old(current)].state == Zombie && tasks[old(current)].exitCode == code
      ensures old(tasks[current].parent in tasks) && Exited(old(Now()), code, Now())
    {
      ExitExits(Now(), code);
      MarkZombieExits(Now(), code);
      tasks := tasks[current := tasks[current].(state := Zombie, exitCode := code)];
      ghost var z := Now();
      while tasks[current].children != []
        invariant Exiting(Now()) && AdoptAll(Now()) == AdoptAll(z)
        decreases |tasks[current].children|
      {
        AdoptKeepsExiting(Now());
        AdoptFirst();
      }
      LeaveForGood();
    }

    /** The end of `doExit`: the parent is woken if it waits. */
    method LeaveForGood()
      requires Exiting(Now()) && tasks[current].children == []
      modifies this
      ensures old(tasks[current].parent in tasks) && Now() == Schedule(WakeParent(old(Now()))) && Inv(Now())
    {
      WakeParentEndsExit(Now());
      if tasks[tasks[current].parent].waiting {
        var woken := WakeUpTask(tasks[current].parent);
      }
      DoSchedule();
    }

    /** The loop over the children in `doWaitPID`. */
    method LookForZombie(children: seq<nat>, pid: nat) returns (k: nat, has: bool)
      requires forall c | c in children :: c in tasks
      ensures k == FirstZombie(Now(), children, pid)
      ensures k == |children| ==> (has <==> exists c :: c in children && Matches(pid, c))
    {
      k, has := 0, false;
      while k < |children|
        invariant k <= |children|
        invariant k + FirstZombie(Now(), children[k..], pid) == FirstZombie(Now(), children, pid)
        invariant has <==> exists i | 0 <= i < k :: Matches(pid, children[i])
      {
        var child := children[k];
        assert children[k..][0] == child && child in children;
        if Matches(pid, child) {
          has := true;
          if tasks[child].state == Zombie {
            return;
          }
        }
        assert children[k..][1..] == children[k + 1..];
        k := k + 1;
      }
    }

    /** A zombie child is taken off the list and destroyed. */
    method ReapChild(child: nat)
      requires current in tasks
      modifies this
      ensures Now() == Reap(old(Now()), child)
    {
      var me := tasks[current];
      tasks := (tasks - {child})[current := me.(waiting := false, children := Without<nat>(me.children, child), at := Elsewhere)];
    }

    /** One pass of `doWaitPID`. */
    method DoWaitPID(pid: nat, nowait: bool) returns (outcome: Outcome)
      requires Inv(Now()) && current != IDLE
      modifies this
      ensures (Now(), outcome) == WaitPid(old(Now()), pid, nowait) && Inv(Now())
      ensures Waited(old(Now()), pid, nowait, Now(), outcome)
    {
      WaitWaits(Now(), pid, nowait);
      WaitKeepsInv(Now(), pid, nowait);
      var me := tasks[current];
      assert ChildrenOk(tasks, current);
      var k, has := LookForZombie(me.children, pid);
      if k < |me.children| {
        var child := me.children[k];
        outcome := Reaped(child, tasks[child].exitCode);
        ReapChild(child);
        return;
      }
      if has && !nowait {
        NoneFound(Now(), pid);
        tasks := tasks[current := me.(state := Interruptible, waiting := true, at := InWait(pid))];
        DoSchedule();
        return Blocked;
      }
      tasks := tasks[current := me.(waiting := false, at := Elsewhere)];
      outcome := if has then TimedOut else NoChild;
    }
  }
}
