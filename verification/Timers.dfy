/** The timer queue, src/time/time.c. */
module Timers {
  import opened TimerState

  /** What a callback may do: arm a timer some ticks ahead, or cancel one. */
  datatype Command = ArmIn(timeout: int) | CancelTimer(id: nat)

  class TimerQueue {
    var ticks: nat
    var timers: seq<Timer>
    var armed: seq<Timer>  // all timers so far; their numbers stand for their addresses
    ghost var fired: seq<Firing>
    ghost var cancelled: set<nat>

    ghost function Now(): State
      reads this
    {
      State(ticks, timers, armed, fired, cancelled)
    }

    ghost predicate Ok()
      reads this
    {
      Inv(Now()) && Quiet(Now())
    }

    /** `initTime`. */
    constructor ()
      ensures Ok() && Now() == State(0, [], [], [], {})
    {
      ticks, timers, armed, fired, cancelled := 0, [], [], [], {};
    }

    /** `initTimer` and `addTimer`: behind all timers that are not later. `inside` tells a callback of the
        timer interrupt from the rest of the kernel. */
    method AddTimer(timeout: int, inside: bool)
      requires Inv(Now()) && if inside then During(Now()) else Quiet(Now())
      modifies this
      ensures Now() == Arm(old(Now()), Deadline(ticks, timeout), inside)
      ensures Inv(Now()) && if inside then During(Now()) else Quiet(Now())
      ensures !DueAtOnce(ticks, timeout) ==> Due(Now()) <= old(Due(Now()))
      ensures armed == old(armed) + [Timer(|old(armed)|, (ticks + timeout) % 0x1_0000_0000_0000_0000, ticks, inside)]
      ensures ticks == old(ticks) && fired == old(fired) && cancelled == old(cancelled)
    {
      var deadline := Deadline(ticks, timeout);
      var p := FindSlot(timers, deadline);
      ArmKeepsInv(Now(), deadline, inside);
      if deadline > ticks {
        ArmKeepsDue(Now(), deadline, inside);
      }
      var t := Timer(|armed|, deadline, ticks, inside);
      timers := timers[..p] + [t] + timers[p..];
      armed := armed + [t];
    }

    /** The loop of `addTimer`. */
    static method FindSlot(timers: seq<Timer>, deadline: nat) returns (p: nat)
      ensures p == Slot(timers, deadline)
    {
      p := 0;
      while p < |timers| && timers[p].deadline <= deadline
        invariant p <= |timers| && Slot(timers, deadline) == p + Slot(timers[p..], deadline)
      {
        p := p + 1;
      }
    }

    /** `removeTimer`. */
    method RemoveTimer(id: nat)
      requires Inv(Now())
      modifies this
      ensures !old(Queued(timers, id)) ==> Now() == old(Now())
      ensures old(Queued(timers, id)) ==>
                exists i :: 0 <= i < |old(timers)| && old(timers)[i].id == id && Now() == Drop(old(Now()), i)
      ensures cancelled == if old(Queued(timers, id)) then old(cancelled) + {id} else old(cancelled)
      ensures armed == old(armed) && fired == old(fired) && ticks == old(ticks)
      ensures Inv(Now()) && (old(Quiet(Now())) ==> Quiet(Now()))
      ensures old(During(Now())) ==> During(Now()) && Due(Now()) <= old(Due(Now()))
    {
      var i := 0;
      while i < |timers| && timers[i].id != id
        invariant i <= |timers| && forall j | 0 <= j < i :: timers[j].id != id
      {
        i := i + 1;
      }
      if i < |timers| {
        DropKeepsInv(Now(), i);
        DropShrinksDue(Now(), i);
        timers := timers[..i] + timers[i + 1..];
        cancelled := cancelled + {id};
      }
    }

    /** A callback runs: it arms what it asks for, in that order, and what it cancels is cancelled unless it
        has fired. */
    method RunCallback(commands: seq<Command>)
      requires Inv(Now()) && During(Now())
      modifies this
      ensures Inv(Now()) && During(Now()) && Extends(old(Now()), Now()) && fired == old(fired) && ticks == old(ticks)
      ensures AllLater(ticks, commands) ==> Due(Now()) <= old(Due(Now()))
      ensures armed == old(armed) + ArmedBy(ticks, |old(armed)|, commands)
      ensures CancelsDone(old(Now()), Now(), CancelledBy(commands))
    {
      ghost var s0 := Now();
      assert commands[..0] == [];
      for n := 0 to |commands|
        invariant CameFrom(s0, commands[..n])
      {
        assert commands[..n + 1] == commands[..n] + [commands[n]];
        RunCommand(commands[n], s0, commands[..n]);
      }
      assert commands[..|commands|] == commands;
    }

    /** A callback that began in state `s0` has given these commands. */
    ghost predicate CameFrom(s0: State, commands: seq<Command>)
      reads this
    {
      && Inv(Now()) && During(Now()) && Extends(s0, Now()) && fired == s0.fired && ticks == s0.ticks
      && armed == s0.armed + ArmedBy(s0.ticks, |s0.armed|, commands) && CancelsDone(s0, Now(), CancelledBy(commands))
      && (AllLater(s0.ticks, commands) ==> Due(Now()) <= Due(s0))
    }

    method RunCommand(command: Command, ghost s0: State, ghost before: seq<Command>)
      requires CameFrom(s0, before)
      modifies this
      ensures CameFrom(s0, before + [command])
    {
      assert (before + [command])[..|before|] == before;
      CancelledByNext(before, command);
      assert AllLater(ticks, before + [command]) ==> AllLater(ticks, before) && AllLater(ticks, [command]);
      match command {
        case ArmIn(timeout) => AddTimer(timeout, true);
        case CancelTimer(id) =>
          ghost var s := Now();
          RemoveTimer(id);
          CancelsNext(s0, s, Now(), CancelledBy(before), id);
      }
    }

    /** `listDelete` of the first timer, which fires. */
    method PopFirst()
      requires Inv(Now()) && During(Now()) && timers != [] && timers[0].deadline <= ticks
      modifies this
      ensures Now() == Pop(old(Now())) && Inv(Now()) && During(Now()) && Due(Now()) < old(Due(Now()))
    {
      PopKeepsInv(Now());
      PopShrinksDue(Now());
      fired := fired + [Firing(timers[0].id, ticks)];
      timers := timers[1..];
    }

    /** In the interrupt that began in state `s0`, after `n` callbacks. */
    ghost predicate Interrupting(s0: State, callback: nat -> seq<Command>, n: nat)
      reads this
    {
      |fired| == |s0.fired| + n && CalledBack(s0, callback, n)
    }

    ghost predicate CalledBack(s0: State, callback: nat -> seq<Command>, n: nat)
      reads this
    {
      && Inv(Now()) && During(Now()) && ticks == s0.ticks + 1 && Extends(s0, Now())
      && (forall m | |s0.fired| <= m < |fired| :: fired[m].tick == ticks)
      && armed == s0.armed + ArmedByFirst(ticks, |s0.armed|, callback, n)
      && CancelsDone(s0, Now(), CancelledByFirst(callback, n))
    }

    /** The next timer fires. */
    method PopNext(ghost callback: nat -> seq<Command>, ghost n: nat, ghost s0: State)
      requires CalledBack(s0, callback, n) && timers != [] && timers[0].deadline <= ticks
      modifies this
      ensures CalledBack(s0, callback, n) && |fired| == old(|fired|) + 1 && ticks == old(ticks)
      ensures Due(Now()) < old(Due(Now()))
    {
      PopKeepsCancels(s0, Now(), CancelledByFirst(callback, n));
      PopFirst();
    }

    /** One round of the loop of `timeInterrupt`. */
    method FireFirst(callback: nat -> seq<Command>, n: nat, ghost s0: State, ghost bound: nat)
      requires Interrupting(s0, callback, n) && timers != [] && timers[0].deadline <= ticks
      requires LaterFrom(ticks, callback, bound)
      modifies this
      ensures Interrupting(s0, callback, n + 1) && ticks == old(ticks)
      ensures n >= bound ==> Due(Now()) < old(Due(Now()))
    {
      PopNext(callback, n, s0);
      ghost var s1 := Now();
      RunCallback(callback(n));
      CancelsCompose(s0, s1, Now(), CancelledByFirst(callback, n), CancelledBy(callback(n)));
    }

    method NextTick(ghost callback: nat -> seq<Command>)
      requires Ok()
      modifies this
      ensures Interrupting(old(Now()), callback, 0) && ticks == old(ticks) + 1
    {
      TickKeepsInv(Now());
      ticks := ticks + 1;
    }

    /** `timeInterrupt`. `callback(n)` is what the callback of its n-th firing does; the interrupt does that and no
        more. It ends if from some firing on no callback arms a timer that is due at once (`NeverEndsIff`). */
    method TimeInterrupt(callback: nat -> seq<Command>, ghost bound: nat)
      requires Ok() && LaterFrom(ticks + 1, callback, bound)
      modifies this
      ensures Ok() && ticks == old(ticks) + 1 && Extends(old(Now()), Now())
      ensures forall n | |old(fired)| <= n < |fired| :: fired[n].tick == ticks
      ensures armed == old(armed) + ArmedByFirst(ticks, |old(armed)|, callback, |fired| - |old(fired)|)
      ensures CancelsDone(old(Now()), Now(), CancelledByFirst(callback, |fired| - |old(fired)|))
    {
      ghost var s0 := Now();
      NextTick(callback);
      var n: nat := 0;
      while timers != [] && timers[0].deadline <= ticks
        invariant Interrupting(s0, callback, n) && LaterFrom(ticks, callback, bound)
        decreases if n < bound then bound - n else 0, Due(Now())
      {
        FireFirst(callback, n, s0, bound);
        n := n + 1;
      }
      NoneDue(Now());
      assert |fired| - |s0.fired| == n;
    }
  }

  /** The timers that the first `rounds` callbacks of an interrupt in tick `ticks` arm, numbered from `n` on. */
  function ArmedByFirst(ticks: nat, n: nat, callback: nat -> seq<Command>, rounds: nat): (armed: seq<Timer>) {
    if rounds == 0 then []
    else
      var before := ArmedByFirst(ticks, n, callback, rounds - 1);
      before + ArmedBy(ticks, n + |before|, callback(rounds - 1))
  }

  /** And those that they cancel. */
  ghost function CancelledByFirst(callback: nat -> seq<Command>, rounds: nat): set<nat> {
    if rounds == 0 then {} else CancelledByFirst(callback, rounds - 1) + CancelledBy(callback(rounds - 1))
  }

  /** The timers that these commands arm in tick `ticks`, numbered from `n` on. */
  function ArmedBy(ticks: nat, n: nat, commands: seq<Command>): (armed: seq<Timer>)
  {
    if commands == [] then []
    else
      var before, last := ArmedBy(ticks, n, commands[..|commands| - 1]), commands[|commands| - 1];
      if last.ArmIn? then before + [Timer(n + |before|, (ticks + last.timeout) % 0x1_0000_0000_0000_0000, ticks, true)] else before
  }

  /** The timers that these commands cancel. */
  ghost function CancelledBy(commands: seq<Command>): set<nat> {
    set c | c in commands && c.CancelTimer? :: c.id
  }

  lemma CancelledByNext(before: seq<Command>, command: Command)
    ensures CancelledBy(before + [command]) == if command.CancelTimer? then CancelledBy(before) + {command.id} else CancelledBy(before)
  {
    forall id
      ensures id in CancelledBy(before + [command]) <==> id in CancelledBy(before) || command == CancelTimer(id)
    {
      assert id in CancelledBy(before + [command]) <==> CancelTimer(id) in before + [command];
      assert id in CancelledBy(before) <==> CancelTimer(id) in before;
    }
  }

  /** Of the timers that were there, those in `wanted` were cancelled, except those that have fired; of new ones no others. */
  ghost predicate CancelsDone(s0: State, s: State, wanted: set<nat>) {
    && (forall id | 0 <= id < |s0.armed| :: id in s.cancelled <==> id in s0.cancelled || (id in wanted && !HasFired(s.fired, id)))
    && (forall id | id >= |s0.armed| && id in s.cancelled :: id in wanted)
  }

  lemma CancelsNext(s0: State, s: State, r: State, wanted: set<nat>, id: nat)
    requires CancelsDone(s0, s, wanted) && Inv(s) && Extends(s0, s) && r.fired == s.fired
    requires r.cancelled == if Queued(s.timers, id) then s.cancelled + {id} else s.cancelled
    ensures CancelsDone(s0, r, wanted + {id})
  {
  }

  lemma PopKeepsCancels(s0: State, s: State, wanted: set<nat>)
    requires CancelsDone(s0, s, wanted) && Inv(s) && Extends(s0, s) && s.timers != []
    ensures CancelsDone(s0, Pop(s), wanted)
  {
    forall id: nat {
      PopMembers(s, id);
    }
    assert Queued(s.timers, s.timers[0].id);
  }

  lemma CancelsCompose(s0: State, s1: State, s2: State, first: set<nat>, second: set<nat>)
    requires CancelsDone(s0, s1, first) && CancelsDone(s1, s2, second) && s2.fired == s1.fired && |s0.armed| <= |s1.armed|
    ensures CancelsDone(s0, s2, first + second)
  {
  }

  /** From firing `bound` on no callback arms a timer that is due at once. */
  ghost predicate LaterFrom(ticks: nat, callback: nat -> seq<Command>, bound: nat) {
    forall n: nat | n >= bound :: AllLater(ticks, callback(n))
  }

  /** No command arms a timer that is due at once. */
  predicate AllLater(ticks: nat, commands: seq<Command>) {
    forall c | c in commands && c.ArmIn? :: !DueAtOnce(ticks, c.timeout)
  }
}
