/** The timer queue of src/time/time.c and its history: which timers were armed, fired and cancelled. */
module TimerState {

  const TWO64: nat := 0x1_0000_0000_0000_0000

  /** A timer that went into the queue in tick `at`; ids number these events. `inside`: a callback of the
      timer interrupt armed it. */
  datatype Timer = Timer(id: nat, deadline: nat, at: nat, inside: bool)

  datatype Firing = Firing(id: nat, tick: int)

  datatype State = State(ticks: nat, timers: seq<Timer>, armed: seq<Timer>, fired: seq<Firing>, cancelled: set<nat>)

  /** `ticks + timeout` in `initTimer`: an int added to an unsigned 64-bit counter. */
  function Deadline(ticks: nat, timeout: int): (d: nat)
    ensures d < TWO64
  {
    (ticks + timeout) % TWO64
  }

  predicate IsInt(x: int) {
    -0x8000_0000 <= x < 0x8000_0000
  }

  /** Armed in tick `ticks`, the timer counts as due already. */
  predicate DueAtOnce(ticks: nat, timeout: int) {
    Deadline(ticks, timeout) <= ticks
  }

  /** A timeout that is not positive is due at once, unless it reaches back beyond tick 0: then the
      deadline wraps around and lies in the far future. */
  lemma DueAtOnceIff(ticks: nat, timeout: int)
    requires ticks < TWO64 && IsInt(timeout)
    ensures DueAtOnce(ticks, timeout) <==> timeout <= 0 <= ticks + timeout || ticks + timeout >= TWO64
  {
    var sum := ticks + timeout;
    if sum < 0 {
      assert sum % TWO64 == sum + TWO64;
    } else if sum < TWO64 {
      assert sum % TWO64 == sum;
    } else {
      assert sum % TWO64 == sum - TWO64;
    }
  }

  /** The interrupt a timer is meant to fire in: that of its deadline. If the deadline has passed, it is
      the running interrupt for a timer armed by a callback, and the next one otherwise. */
  function FireTick(t: Timer): (k: nat)
    ensures k >= t.deadline && k >= t.at && (k == t.at ==> t.inside)
  {
    if t.deadline > t.at then t.deadline else if t.inside then t.at else t.at + 1
  }

  /** The order of the queue: by deadline, ties as they were armed. */
  predicate Before(t: Timer, u: Timer) {
    t.deadline < u.deadline || (t.deadline == u.deadline && t.id < u.id)
  }

  /** A callback armed it for a tick that had come already. */
  predicate Late(t: Timer) {
    t.inside && t.deadline <= t.at
  }

  /** The order in which timers fire: late ones may come behind timers that had fired before they were armed. */
  predicate FiresBefore(t: Timer, u: Timer) {
    FireTick(t) < FireTick(u) || (FireTick(t) == FireTick(u) && (Before(t, u) || Late(u)))
  }

  ghost predicate Queued(timers: seq<Timer>, id: nat) {
    exists i | 0 <= i < |timers| :: timers[i].id == id
  }

  ghost predicate HasFired(fired: seq<Firing>, id: nat) {
    exists n | 0 <= n < |fired| :: fired[n].id == id
  }

  ghost predicate Sorted(timers: seq<Timer>) {
    forall i, j | 0 <= i < j < |timers| :: Before(timers[i], timers[j])
  }

  ghost predicate QueueOk(s: State) {
    && Sorted(s.timers)
    && (forall k | 0 <= k < |s.armed| :: s.armed[k].id == k && s.armed[k].at <= s.ticks)
    && (forall i | 0 <= i < |s.timers| :: s.timers[i].id < |s.armed| && s.armed[s.timers[i].id] == s.timers[i])
  }

  /** Every firing happened in its tick, in firing order, and before all that is still queued. */
  ghost predicate FiredOk(s: State) {
    && (forall n | 0 <= n < |s.fired| ::
          s.fired[n].id < |s.armed| && s.fired[n].tick == FireTick(s.armed[s.fired[n].id]) <= s.ticks)
    && (forall m, n | 0 <= m < n < |s.fired| ::
          s.fired[m].id != s.fired[n].id && FiresBefore(s.armed[s.fired[m].id], s.armed[s.fired[n].id]))
    && (forall n, i | 0 <= n < |s.fired| && 0 <= i < |s.timers| ::
          s.fired[n].id != s.timers[i].id && FiresBefore(s.armed[s.fired[n].id], s.timers[i]))
  }

  /** Every timer ever armed is queued, has fired or was cancelled, and only one of these. */
  ghost predicate FateOk(s: State) {
    && (forall id | 0 <= id < |s.armed| :: Queued(s.timers, id) || HasFired(s.fired, id) || id in s.cancelled)
    && (forall id | id in s.cancelled :: id < |s.armed| && !Queued(s.timers, id) && !HasFired(s.fired, id))
  }

  ghost predicate Inv(s: State) {
    QueueOk(s) && FiredOk(s) && FateOk(s)
  }

  /** Between interrupts: nothing queued should have fired yet. */
  ghost predicate Quiet(s: State) {
    forall i | 0 <= i < |s.timers| :: FireTick(s.timers[i]) > s.ticks
  }

  /** Inside an interrupt: timers that are due are meant to fire right now. */
  ghost predicate During(s: State) {
    forall i | 0 <= i < |s.timers| :: FireTick(s.timers[i]) >= s.ticks && (s.timers[i].deadline <= s.ticks ==> FireTick(s.timers[i]) == s.ticks)
  }

  // ----- Steps -----

  function Tick(s: State): State {
    s.(ticks := s.ticks + 1)
  }

  lemma TickKeepsInv(s: State)
    requires Inv(s) && Quiet(s)
    ensures Inv(Tick(s)) && During(Tick(s))
  {
    forall i | 0 <= i < |s.timers|
      ensures s.timers[i].deadline <= s.ticks + 1 ==> FireTick(s.timers[i]) == s.ticks + 1
    {
      assert s.armed[s.timers[i].id].at <= s.ticks;
    }
  }

  /** Where `addTimer` puts a timer with this deadline: in front of the first later one. */
  function Slot(timers: seq<Timer>, deadline: nat): (p: nat)
    ensures p <= |timers| && (forall i | 0 <= i < p :: timers[i].deadline <= deadline)
    ensures p < |timers| ==> timers[p].deadline > deadline
  {
    if timers == [] || timers[0].deadline > deadline then 0 else 1 + Slot(timers[1..], deadline)
  }

  function InsertAt(s: State, t: Timer, p: nat): State
    requires p <= |s.timers|
  {
    s.(timers := s.timers[..p] + [t] + s.timers[p..], armed := s.armed + [t])
  }

  function Arm(s: State, deadline: nat, inside: bool): State {
    InsertAt(s, Timer(|s.armed|, deadline, s.ticks, inside), Slot(s.timers, deadline))
  }

  lemma ArmSorts(s: State, deadline: nat, inside: bool)
    requires QueueOk(s)
    ensures QueueOk(Arm(s, deadline, inside))
  {
    var r, p := Arm(s, deadline, inside), Slot(s.timers, deadline);
    forall i, j | 0 <= i < j < |r.timers|
      ensures Before(r.timers[i], r.timers[j])
    {
      if i < p && j == p {
        assert s.timers[i].id < |s.armed|;
      } else if i == p {
        assert s.timers[j - 1].deadline > deadline by {
          if j - 1 > p {
            assert Before(s.timers[p], s.timers[j - 1]);
          }
        }
      }
    }
  }

  lemma ArmMembers(s: State, deadline: nat, inside: bool, id: nat)
    ensures Queued(Arm(s, deadline, inside).timers, id) <==> Queued(s.timers, id) || id == |s.armed|
  {
    var r, p := Arm(s, deadline, inside), Slot(s.timers, deadline);
    if Queued(s.timers, id) {
      var i :| 0 <= i < |s.timers| && s.timers[i].id == id;
      assert r.timers[if i < p then i else i + 1].id == id;
    }
    assert r.timers[p].id == |s.armed|;
  }

  lemma ArmKeepsInv(s: State, deadline: nat, inside: bool)
    requires Inv(s) && if inside then During(s) else Quiet(s)
    ensures Inv(Arm(s, deadline, inside)) && if inside then During(Arm(s, deadline, inside)) else Quiet(Arm(s, deadline, inside))
  {
    ArmSorts(s, deadline, inside);
    ArmKeepsFate(s, deadline, inside);
    forall n, i | 0 <= n < |s.fired| && 0 <= i <= |s.timers| {
      ArmComesAfter(s, deadline, inside, n, i);
    }
    forall i | 0 <= i <= |s.timers| {
      ArmedOrQueued(s, deadline, inside, i);
    }
  }

  /** The timers afterwards: those before and the new one. */
  lemma ArmedOrQueued(s: State, deadline: nat, inside: bool, i: nat)
    requires i <= |s.timers|
    ensures var t := Arm(s, deadline, inside).timers[i];
            t == Timer(|s.armed|, deadline, s.ticks, inside) || exists j :: 0 <= j < |s.timers| && t == s.timers[j]
  {
    var p := Slot(s.timers, deadline);
    if i != p {
      assert Arm(s, deadline, inside).timers[i] == s.timers[if i < p then i else i - 1];
    }
  }

  lemma ArmComesAfter(s: State, deadline: nat, inside: bool, n: nat, i: nat)
    requires Inv(s) && (inside || Quiet(s)) && n < |s.fired| && i <= |s.timers|
    ensures var t := Arm(s, deadline, inside).timers[i];
            s.fired[n].id != t.id && FiresBefore(s.armed[s.fired[n].id], t)
  {
    ArmedOrQueued(s, deadline, inside, i);
  }

  lemma ArmKeepsFate(s: State, deadline: nat, inside: bool)
    requires Inv(s)
    ensures FateOk(Arm(s, deadline, inside))
  {
    forall id: nat {
      ArmMembers(s, deadline, inside, id);
    }
    forall n | 0 <= n < |s.fired|
      ensures s.fired[n].id != |s.armed|
    {
    }
  }

  /** `removeTimer`: nothing happens if the timer is not queued. */
  function Drop(s: State, i: nat): State
    requires i < |s.timers|
  {
    s.(timers := s.timers[..i] + s.timers[i + 1..], cancelled := s.cancelled + {s.timers[i].id})
  }

  lemma RemovalMembers(s: State, i: nat, id: nat)
    requires QueueOk(s) && i < |s.timers|
    ensures Queued(s.timers[..i] + s.timers[i + 1..], id) <==> Queued(s.timers, id) && id != s.timers[i].id
  {
    var r := s.timers[..i] + s.timers[i + 1..];
    if Queued(s.timers, id) && id != s.timers[i].id {
      var j :| 0 <= j < |s.timers| && s.timers[j].id == id;
      assert r[if j < i then j else j - 1].id == id;
    }
    forall j | 0 <= j < |r|
      ensures r[j].id != s.timers[i].id
    {
      var k := if j < i then j else j + 1;
      assert r[j] == s.timers[k];
      assert if k < i then Before(s.timers[k], s.timers[i]) else Before(s.timers[i], s.timers[k]);
    }
  }

  lemma DropKeepsInv(s: State, i: nat)
    requires Inv(s) && i < |s.timers|
    ensures Inv(Drop(s, i))
    ensures Quiet(s) ==> Quiet(Drop(s, i))
    ensures During(s) ==> During(Drop(s, i))
  {
    var r := Drop(s, i);
    forall id: nat {
      RemovalMembers(s, i, id);
    }
    forall j | 0 <= j < |r.timers|
      ensures r.timers[j] == s.timers[if j < i then j else j + 1]
    {
    }
    QueuedNotFired(s, i);
  }

  lemma QueuedNotFired(s: State, i: nat)
    requires Inv(s) && i < |s.timers|
    ensures !HasFired(s.fired, s.timers[i].id)
  {
    forall n | 0 <= n < |s.fired|
      ensures s.fired[n].id != s.timers[i].id
    {
      assert s.fired[n].id != s.timers[i].id;
    }
  }

  /** The first timer fires. */
  function Pop(s: State): State
    requires s.timers != []
  {
    s.(timers := s.timers[1..], fired := s.fired + [Firing(s.timers[0].id, s.ticks)])
  }

  lemma PopMembers(s: State, id: nat)
    requires QueueOk(s) && s.timers != []
    ensures Queued(Pop(s).timers, id) <==> Queued(s.timers, id) && id != s.timers[0].id
    ensures HasFired(Pop(s).fired, id) <==> HasFired(s.fired, id) || id == s.timers[0].id
  {
    var r := Pop(s);
    assert s.timers[..0] + s.timers[1..] == r.timers;
    RemovalMembers(s, 0, id);
    if HasFired(s.fired, id) {
      var n :| 0 <= n < |s.fired| && s.fired[n].id == id;
      assert r.fired[n].id == id;
    }
    assert r.fired[|s.fired|].id == s.timers[0].id;
  }

  lemma PopKeepsFate(s: State)
    requires QueueOk(s) && FateOk(s) && s.timers != []
    ensures FateOk(Pop(s))
  {
    forall id: nat {
      PopMembers(s, id);
    }
    assert Queued(s.timers, s.timers[0].id);
  }

  lemma PopKeepsInv(s: State)
    requires Inv(s) && During(s) && s.timers != [] && s.timers[0].deadline <= s.ticks
    ensures Inv(Pop(s)) && During(Pop(s))
  {
    PopKeepsFate(s);
    var r := Pop(s);
    forall i | 0 <= i < |r.timers|
      ensures r.timers[i] == s.timers[i + 1] && s.timers[0].id != r.timers[i].id && FiresBefore(s.timers[0], r.timers[i])
    {
      assert Before(s.timers[0], s.timers[i + 1]);
    }
  }

  /** When the first timer is not due, none is. */
  lemma NoneDue(s: State)
    requires Inv(s) && (s.timers == [] || s.timers[0].deadline > s.ticks)
    ensures Quiet(s)
  {
    forall i | 0 < i < |s.timers|
      ensures s.timers[i].deadline > s.ticks
    {
      assert Before(s.timers[0], s.timers[i]);
    }
  }

  /** The history only grows. */
  ghost predicate Extends(s: State, r: State) {
    && s.ticks <= r.ticks && s.armed <= r.armed && s.fired <= r.fired && s.cancelled <= r.cancelled
  }

  // ----- What the history says -----

  /** Between interrupts a timer that was not cancelled has fired if and only if its tick has come,
      exactly once and in that tick. */
  lemma FiresOnceOnTime(s: State, id: nat)
    requires Inv(s) && Quiet(s) && id < |s.armed| && id !in s.cancelled
    ensures HasFired(s.fired, id) <==> FireTick(s.armed[id]) <= s.ticks
    ensures forall n | 0 <= n < |s.fired| && s.fired[n].id == id :: s.fired[n].tick == FireTick(s.armed[id])
    ensures forall m, n | 0 <= m < n < |s.fired| :: !(s.fired[m].id == id && s.fired[n].id == id)
  {
    if Queued(s.timers, id) {
      var i :| 0 <= i < |s.timers| && s.timers[i].id == id;
      QueuedNotFired(s, i);
      assert s.timers[i] == s.armed[id];
    }
  }

  /** Firings are in deadline order, apart from timers that were armed too late to keep theirs. */
  lemma FiresInDeadlineOrder(s: State, m: nat, n: nat)
    requires Inv(s) && m < n < |s.fired|
    ensures s.fired[m].tick <= s.fired[n].tick
    ensures var t, u := s.armed[s.fired[m].id], s.armed[s.fired[n].id];
            t.deadline > t.at && u.deadline > u.at ==> Before(t, u)
  {
    assert FiresBefore(s.armed[s.fired[m].id], s.armed[s.fired[n].id]);
  }

  /** The timers that are due. */
  ghost function Due(s: State): set<nat> {
    set i | 0 <= i < |s.timers| && s.timers[i].deadline <= s.ticks :: s.timers[i].id
  }

  lemma PopShrinksDue(s: State)
    requires QueueOk(s) && s.timers != [] && s.timers[0].deadline <= s.ticks
    ensures Due(Pop(s)) < Due(s)
  {
    var r := Pop(s);
    assert s.timers[0].id in Due(s);
    forall id | id in Due(r)
      ensures id in Due(s) && id != s.timers[0].id
    {
      var i :| 0 <= i < |r.timers| && r.timers[i].deadline <= r.ticks && r.timers[i].id == id;
      assert r.timers[i] == s.timers[i + 1] && Before(s.timers[0], s.timers[i + 1]);
    }
  }

  lemma ArmKeepsDue(s: State, deadline: nat, inside: bool)
    requires deadline > s.ticks
    ensures Due(Arm(s, deadline, inside)) <= Due(s)
  {
    var r, p := Arm(s, deadline, inside), Slot(s.timers, deadline);
    forall id | id in Due(r)
      ensures id in Due(s)
    {
      var i :| 0 <= i < |r.timers| && r.timers[i].deadline <= r.ticks && r.timers[i].id == id;
      assert i != p && r.timers[i] == s.timers[if i < p then i else i - 1];
    }
  }

  lemma DropShrinksDue(s: State, i: nat)
    requires i < |s.timers|
    ensures Due(Drop(s, i)) <= Due(s)
  {
    var r := Drop(s, i);
    forall id | id in Due(r)
      ensures id in Due(s)
    {
      var j :| 0 <= j < |r.timers| && r.timers[j].deadline <= r.ticks && r.timers[j].id == id;
      assert r.timers[j] == s.timers[if j < i then j else j + 1];
    }
  }

  // ----- A callback that arms its timer again -----

  /** The guard of the loop of `timeInterrupt`. */
  predicate SomeDue(s: State) {
    s.timers != [] && s.timers[0].deadline <= s.ticks
  }

  /** `n` rounds of the loop, as far as it gets, when every callback arms its timer again with `timeout`. */
  function Rounds(s: State, timeout: int, n: nat): State {
    if n == 0 then s
    else
      var r := Rounds(s, timeout, n - 1);
      if SomeDue(r) then Arm(Pop(r), Deadline(r.ticks, timeout), true) else r
  }

  /** The interrupt never ends if and only if such a timer is due at once. */
  lemma NeverEndsIff(s: State, timeout: int)
    requires QueueOk(s) && SomeDue(s)
    ensures (forall n: nat :: SomeDue(Rounds(s, timeout, n))) <==> DueAtOnce(s.ticks, timeout)
  {
    if DueAtOnce(s.ticks, timeout) {
      forall n: nat
        ensures SomeDue(Rounds(s, timeout, n))
      {
        GoesOn(s, timeout, n);
      }
    } else {
      RunsOut(s, timeout, |Due(s)|);
      DueSeen(Rounds(s, timeout, |Due(s)|));
    }
  }

  lemma PopKeepsQueue(s: State)
    requires QueueOk(s) && s.timers != []
    ensures QueueOk(Pop(s))
  {
  }

  lemma {:induction false} GoesOn(s: State, timeout: int, n: nat)
    requires QueueOk(s) && SomeDue(s) && DueAtOnce(s.ticks, timeout)
    ensures var r := Rounds(s, timeout, n); QueueOk(r) && SomeDue(r) && r.ticks == s.ticks
  {
    if n > 0 {
      GoesOn(s, timeout, n - 1);
      var r := Rounds(s, timeout, n - 1);
      PopKeepsQueue(r);
      ArmedFirst(Pop(r), Deadline(r.ticks, timeout));
    }
  }

  lemma ArmedFirst(s: State, deadline: nat)
    requires QueueOk(s) && deadline <= s.ticks
    ensures QueueOk(Arm(s, deadline, true)) && SomeDue(Arm(s, deadline, true))
  {
    ArmSorts(s, deadline, true);
    assert Slot(s.timers, deadline) > 0 ==> s.timers[0].deadline <= deadline;
  }

  lemma DueSeen(s: State)
    requires QueueOk(s)
    ensures SomeDue(s) ==> Due(s) != {}
  {
    if SomeDue(s) {
      assert s.timers[0].id in Due(s);
    }
  }

  lemma {:induction false} RunsOut(s: State, timeout: int, n: nat)
    requires QueueOk(s) && !DueAtOnce(s.ticks, timeout)
    ensures var r := Rounds(s, timeout, n);
            QueueOk(r) && r.ticks == s.ticks && if n <= |Due(s)| then |Due(r)| <= |Due(s)| - n else Due(r) == {}
  {
    if n > 0 {
      RunsOut(s, timeout, n - 1);
      var r := Rounds(s, timeout, n - 1);
      DueSeen(r);
      if SomeDue(r) {
        PopShrinksDue(r);
        PopKeepsQueue(r);
        ArmSorts(Pop(r), Deadline(r.ticks, timeout), true);
        ArmKeepsDue(Pop(r), Deadline(r.ticks, timeout), true);
        Smaller(Due(Rounds(s, timeout, n)), Due(Pop(r)), Due(r));
      } else {
        NothingDue(r);
      }
    }
  }

  lemma Smaller(a: set<nat>, b: set<nat>, c: set<nat>)
    requires a <= b < c
    ensures |a| < |c|
  {
    assert b == a + (b - a) && c == b + (c - b);
    assert c - b != {};
  }

  lemma NothingDue(s: State)
    requires QueueOk(s) && !SomeDue(s)
    ensures Due(s) == {}
  {
    forall i | 0 < i < |s.timers|
      ensures s.timers[i].deadline > s.ticks
    {
      assert Before(s.timers[0], s.timers[i]);
    }
  }

  /** In tick 3 a callback that arms itself with timeout 0 keeps the interrupt from ending; with -5,
      or when it arms itself only once, it does not. */
  lemma NeverEnds()
    ensures var t := Timer(0, 3, 0, false);
            var s := State(3, [t], [t], [], {});
            && (forall n: nat :: SomeDue(Rounds(s, 0, n)))
            && !(forall n: nat :: SomeDue(Rounds(s, -5, n)))
            && !SomeDue(Pop(Arm(Pop(s), Deadline(3, 0), true)))
  {
    var t := Timer(0, 3, 0, false);
    var s := State(3, [t], [t], [], {});
    DueAtOnceIff(3, 0);
    DueAtOnceIff(3, -5);
    NeverEndsIff(s, 0);
    NeverEndsIff(s, -5);
  }
}
