/**
 The limit on srd (src/enclave/srd/Srd.cpp and src/app/process/Srd.cpp). The number of gigabytes,
 the queued task and the turn in flight change by steps that may come in any order; one turn is
 in flight at a time, and change_srd_task is one step.
 */
module SrdCap {
  import opened Basics
  import Runs

  const LIMIT := 512000
  const MAX_INC := 64
  const MAX_DEC := 5000

  /**
   What change_srd_task really adds to the task: it looks at the entries and the queued task, but not
   at the turn in flight.
   */
  function RealChange(n: nat, task: int, change: int): int {
    if change <= 0 then change
    else if n + task >= LIMIT then 0
    else Min(change, LIMIT - (n + task))
  }

  /** What the next turn takes from the task. */
  function TurnSize(task: int): int {
    if task > 0 then Min(task, MAX_INC) else Max(task, -MAX_DEC)
  }

  datatype Turn =
    | Idle
    | Increasing(running: nat, failed: nat, exceeded: bool)
    | Decreasing(k: nat)

  /** The number of entries, the queued task and the turn in flight. */
  datatype Srd = Srd(n: nat, task: int, turn: Turn)

  const EMPTY := Srd(0, 0, Idle)

  datatype Action =
    | Change(change: int)       // a change of the task, from outside
    | Start(capacity: nat)      // a turn begins; the disks have room for so much
    | Success                   // one increase of the turn has been done
    | Failure                   // one increase of the turn has failed
    | Requeue                   // the failed increases go back to the task
    | Forget                    // ... or this fails too
    | Finish                    // the turn is over; if it exceeded the room, the task is dropped
    | Decrease(marked: nat)     // the marked entries, then the last ones are deleted
    | Lose(k: nat)              // entries are deleted outside a turn

  predicate Enabled(s: Srd, a: Action) {
    match a
    case Change(_) => true
    case Start(_) => s.turn.Idle? && s.task != 0
    case Success => s.turn.Increasing? && s.turn.running > 0
    case Failure => s.turn.Increasing? && s.turn.running > 0
    case Requeue => s.turn.Increasing? && s.turn.running == 0 && s.turn.failed > 0
    case Forget => s.turn.Increasing? && s.turn.running == 0 && s.turn.failed > 0
    case Finish => s.turn.Increasing? && s.turn.running == 0 && s.turn.failed == 0
    case Decrease(marked) => s.turn.Decreasing? && marked <= s.n
    case Lose(k) => k <= s.n
  }

  function Apply(s: Srd, a: Action): Srd
    requires Enabled(s, a)
  {
    match a
    case Change(change) => s.(task := s.task + RealChange(s.n, s.task, change))
    case Start(capacity) =>
      var size := TurnSize(s.task);
      var turn := if size > 0 then Increasing(Min(size, capacity), 0, capacity < size) else Decreasing(-size);
      s.(task := s.task - size, turn := turn)
    case Success => s.(n := s.n + 1, turn := s.turn.(running := s.turn.running - 1))
    case Failure => s.(turn := s.turn.(running := s.turn.running - 1, failed := s.turn.failed + 1))
    case Requeue =>
      s.(task := s.task + RealChange(s.n, s.task, s.turn.failed), turn := s.turn.(failed := 0))
    case Forget => s.(turn := s.turn.(failed := 0))
    case Finish => s.(task := if s.turn.exceeded then 0 else s.task, turn := Idle)
    case Decrease(marked) => s.(n := s.n - marked - Min(s.turn.k, s.n - marked), turn := Idle)
    case Lose(k) => s.(n := s.n - k)
  }

  function Next(s: Srd, a: Action): Option<Srd> {
    if Enabled(s, a) then Some(Apply(s, a)) else None
  }

  ghost predicate Run(s: Srd, actions: seq<Action>, s': Srd) {
    Runs.Run(Next, s, actions, s')
  }

  function InFlight(turn: Turn): nat { if turn.Increasing? then turn.running else 0 }

  predicate Inv(s: Srd) {
    s.n + Max(s.task, 0) + InFlight(s.turn) <= LIMIT + MAX_INC
    && (s.turn.Increasing? ==> s.turn.running + s.turn.failed <= MAX_INC)
  }

  lemma StepKeeps(s: Srd, a: Action)
    requires Inv(s) && Enabled(s, a)
    ensures Inv(Apply(s, a))
  {
  }

  /** Over every run, entries, queued task and increases in flight stay within 512000 and one turn. */
  lemma CapAlways(actions: seq<Action>, s: Srd)
    requires Run(EMPTY, actions, s)
    ensures s.n + Max(s.task, 0) + InFlight(s.turn) <= 512064
  {
    forall x, a | Inv(x) && Next(x, a).Some?
      ensures Inv(Next(x, a).value)
    {
      StepKeeps(x, a);
    }
    Runs.RunKeeps(Next, x => Inv(x), EMPTY, actions, s);
  }

  // ----- The bound is reached -----

  ghost predicate Reachable(s: Srd) {
    exists actions :: Run(EMPTY, actions, s)
  }

  lemma Then(s: Srd, a: Action)
    requires Reachable(s) && Enabled(s, a)
    ensures Reachable(Apply(s, a))
  {
    var actions :| Run(EMPTY, actions, s);
    Runs.RunOn(Next, EMPTY, actions, s, a);
    assert Run(EMPTY, actions + [a], Apply(s, a));
  }

  /** A turn of one gigabyte. */
  lemma ClimbOne(k: nat)
    requires k < LIMIT && Reachable(Srd(k, 0, Idle))
    ensures Reachable(Srd(k + 1, 0, Idle))
  {
    Then(Srd(k, 0, Idle), Change(1));
    Then(Srd(k, 1, Idle), Start(1));
    Then(Srd(k, 0, Increasing(1, 0, false)), Success);
    Then(Srd(k + 1, 0, Increasing(0, 0, false)), Finish);
  }

  lemma {:induction false} Climb(k: nat)
    requires k <= LIMIT
    ensures Reachable(Srd(k, 0, Idle))
  {
    if k == 0 {
      assert Run(EMPTY, [], EMPTY);
    } else {
      Climb(k - 1);
      ClimbOne(k - 1);
    }
  }

  lemma {:induction false} Succeed(n: nat, task: int, k: nat)
    requires Reachable(Srd(n, task, Increasing(k, 0, false)))
    ensures Reachable(Srd(n + k, task, Increasing(0, 0, false)))
    decreases k
  {
    if k > 0 {
      Then(Srd(n, task, Increasing(k, 0, false)), Success);
      Succeed(n + 1, task, k - 1);
    }
  }

  /** A change accepted while a turn is in flight takes the number of entries itself past the limit, by a whole turn. */
  lemma LimitIsPassed()
    ensures Reachable(Srd(512064, 0, Increasing(0, 0, false)))
  {
    var below := LIMIT - MAX_INC;
    Climb(below);
    Then(Srd(below, 0, Idle), Change(MAX_INC));
    Then(Srd(below, MAX_INC, Idle), Start(MAX_INC));
    Then(Srd(below, 0, Increasing(MAX_INC, 0, false)), Change(MAX_INC));
    Succeed(below, MAX_INC, MAX_INC);
    Then(Srd(LIMIT, MAX_INC, Increasing(0, 0, false)), Finish);
    Then(Srd(LIMIT, MAX_INC, Idle), Start(MAX_INC));
    Succeed(LIMIT, 0, MAX_INC);
  }

  // ----- When the limit itself is kept -----

  /** Nothing is added from outside while an increase is in flight. */
  ghost predicate Quiet(s: Srd, actions: seq<Action>)
    decreases |actions|
  {
    actions != [] && Enabled(s, actions[0]) ==>
      (actions[0].Change? && actions[0].change > 0 ==> InFlight(s.turn) == 0)
      && Quiet(Apply(s, actions[0]), actions[1..])
  }

  predicate WithinLimit(s: Srd) {
    s.n + Max(s.task, 0) + InFlight(s.turn) <= LIMIT
  }

  lemma {:induction false} QuietKeepsLimit(s: Srd, actions: seq<Action>, s': Srd)
    requires WithinLimit(s) && Run(s, actions, s') && Quiet(s, actions)
    ensures WithinLimit(s')
    decreases |actions|
  {
    if actions != [] {
      QuietKeepsLimit(Apply(s, actions[0]), actions[1..], s');
    }
  }

  /**
   One change keeps to the limit if and only if it queues no increase, or no turn is in flight, or it
   leaves room for the turn.
   */
  lemma ChangeKeepsLimitIff(s: Srd, change: int)
    requires WithinLimit(s)
    ensures WithinLimit(Apply(s, Change(change)))
       <==> change <= 0 || s.task + change <= 0
            || InFlight(s.turn) == 0 || s.n + s.task + change + InFlight(s.turn) <= LIMIT
  {
  }

  /** The change queues no increase, or no turn is in flight, or it leaves room for the turn. */
  predicate Fits(s: Srd, a: Action) {
    a.Change? ==>
      a.change <= 0 || s.task + a.change <= 0
      || InFlight(s.turn) == 0 || s.n + s.task + a.change + InFlight(s.turn) <= LIMIT
  }

  ghost predicate AllFit(s: Srd, actions: seq<Action>)
    decreases |actions|
  {
    actions != [] && Enabled(s, actions[0]) ==> Fits(s, actions[0]) && AllFit(Apply(s, actions[0]), actions[1..])
  }

  ghost predicate StaysWithin(s: Srd, actions: seq<Action>)
    decreases |actions|
  {
    WithinLimit(s) && (actions != [] && Enabled(s, actions[0]) ==> StaysWithin(Apply(s, actions[0]), actions[1..]))
  }

  /** A step leaves the limit only as a change that does not fit. */
  lemma StepWithinIff(s: Srd, a: Action)
    requires WithinLimit(s) && Enabled(s, a)
    ensures WithinLimit(Apply(s, a)) <==> Fits(s, a)
  {
    if a.Change? {
      ChangeKeepsLimitIff(s, a.change);
    }
  }

  /** A run stays within 512000 all the way if and only if every change in it fits. */
  lemma {:induction false} StaysWithinIff(s: Srd, actions: seq<Action>)
    requires WithinLimit(s)
    ensures StaysWithin(s, actions) <==> AllFit(s, actions)
    decreases |actions|
  {
    if actions != [] && Enabled(s, actions[0]) {
      StepWithinIff(s, actions[0]);
      if WithinLimit(Apply(s, actions[0])) {
        StaysWithinIff(Apply(s, actions[0]), actions[1..]);
      }
    }
  }

  // ----- The code -----

  /** The global g_srd_task. */
  class SrdTask {
    var task: int

    constructor ()
      ensures task == 0
    {
      task := 0;
    }

    /** change_srd_task, given the number of entries. */
    method ChangeSrdTask(size: nat, change: int) returns (realChange: int, exceeded: bool)
      modifies this
      ensures realChange == RealChange(size, old(task), change) && task == old(task) + realChange
      ensures exceeded <==> realChange != change || (change > 0 && size + old(task) >= LIMIT)
      ensures change > 0 && !exceeded ==> size + task <= LIMIT
    {
      realChange, exceeded := change, false;
      if realChange > 0 {
        var srdNum := size + task;
        if srdNum >= LIMIT {
          realChange, exceeded := 0, true;
        } else if srdNum + realChange > LIMIT {
          realChange, exceeded := LIMIT - srdNum, true;
        }
      }
      task := task + realChange;
    }

    /** The start of srd_change. */
    method TakeTurn() returns (num: int)
      modifies this
      ensures num == TurnSize(old(task)) && task == old(task) - num && -MAX_DEC <= num <= MAX_INC
    {
      num := 0;
      if task > MAX_INC {
        num := MAX_INC;
        task := task - MAX_INC;
      } else if task > 0 {
        num := task;
        task := 0;
      } else if task < 0 {
        num := Max(task, -MAX_DEC);
        task := task - num;
      }
    }
  }
}
