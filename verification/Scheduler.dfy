/**
 The queue in front of the enclave (src/app/ecalls/EnclaveQueue.cpp and EnclaveQueue.h).
 Threads ask for admission, hold a slot and give it back. The number of slots in use, the
 waiting tasks and the running tasks are counted under three separate locks, so a thread is
 interrupted between any two of its critical sections, and each critical section is a step
 here. A task that the priority table does not name has priority 0.
 */
module Scheduler {
  import opened Basics
  import Runs

  const MAX_THREADS := 32
  const RESERVED := 1
  const TIMEOUT_THRESHOLD := 1
  const PERMANENT_TASKS := 1
  const HIGHEST_PRIORITY := 0
  const TIMEOUT := 30

  // ----- Tables -----

  function Priority(name: string): nat {
    if name in ["Ecall_recover_illegal_file", "Ecall_delete_file", "Ecall_validate_file", "Ecall_validate_srd",
                "Ecall_seal_file_start", "Ecall_seal_file", "Ecall_seal_file_end", "Ecall_unseal_file",
                "Ecall_srd_decrease", "Ecall_srd_remove_space", "Ecall_change_srd_task"] then 1
    else if name in ["Ecall_srd_increase", "Ecall_id_get_info"] then 2
    else 0
  }

  /** The tasks that must not be running when a task is admitted. */
  function Blockers(name: string): seq<string> {
    if name == "Ecall_srd_increase" then ["Ecall_seal_file_start", "Ecall_seal_file", "Ecall_seal_file_end"] else []
  }

  /** The task of higher priority that a task does not give way to. */
  function Ignored(name: string): seq<string> {
    if name == "Ecall_srd_increase" then ["Ecall_unseal_file"] else []
  }

  // ----- Counters -----

  function Add<K>(m: map<K, int>, k: K, d: int): map<K, int> { m[k := Get(m, k) + d] }

  /** The shared counters: slots in use, waiting tasks by priority and by priority and name, running tasks by name. */
  datatype Queue = Queue(slots: int, waiting: map<int, int>, named: map<(int, string), int>, running: map<string, int>)

  function IncreaseWaiting(q: Queue, name: string): Queue {
    var p := Priority(name);
    q.(waiting := Add(q.waiting, p, 1), named := Add(q.named, (p, name), 1))
  }

  function DecreaseWaiting(q: Queue, name: string): Queue {
    var p := Priority(name);
    if Get(q.waiting, p) == 0 then q
    else q.(waiting := Add(q.waiting, p, -1), named := Add(q.named, (p, name), -1))
  }

  function IncreaseRunning(q: Queue, name: string): Queue { q.(running := Add(q.running, name, 1)) }

  function DecreaseRunning(q: Queue, name: string): Queue {
    if Get(q.running, name) == 0 then q else q.(running := Add(q.running, name, -1))
  }

  function IgnoredAt(q: Queue, p: nat, names: seq<string>): int {
    if names == [] then 0 else IgnoredAt(q, p, names[..|names| - 1]) + Get(q.named, (p, names[|names| - 1]))
  }

  /** Waiting tasks of the priorities below `p` (that is, of higher rank), without the ignored ones. */
  function HigherBelow(q: Queue, name: string, p: nat): int {
    if p == 0 then 0
    else HigherBelow(q, name, p - 1) + Get(q.waiting, p - 1) - IgnoredAt(q, p - 1, Ignored(name))
  }

  function Higher(q: Queue, name: string): int { HigherBelow(q, name, Priority(name)) }

  predicate Refused(q: Queue, name: string) {
    q.slots >= MAX_THREADS
    || (Priority(name) > HIGHEST_PRIORITY && MAX_THREADS - q.slots <= RESERVED)
    || Higher(q, name) - PERMANENT_TASKS > 0
  }

  // ----- Threads -----

  /** Where a thread stands between its critical sections. */
  datatype Pc =
    | Checking(k: nat)     // about to look at the k-th blocker
    | Trying               // about to try for a slot
    | Failing              // at the label `loop`
    | Admitted             // has a slot, not yet in the running queue
    | Leaving(won: bool)   // about to leave the waiting queue
    | Holding              // inside the enclave
    | Released             // slot given back, still in the running queue

  datatype Thread = Thread(name: string, pc: Pc, timeout: nat, fails: nat)

  datatype State = State(q: Queue, threads: map<nat, Thread>)

  const START := State(Queue(0, map[], map[], map[]), map[])

  datatype Action =
    | Call(t: nat, name: string)
    | Check(t: nat)
    | Try(t: nat)
    | Fail(t: nat)
    | Enroll(t: nat)
    | Leave(t: nat)
    | Free(t: nat)
    | Unenroll(t: nat)

  /** The program point an action starts from. */
  predicate Ready(th: Thread, a: Action) {
    match a
    case Call(_, name) => th == Thread(name, Checking(0), 0, 0)
    case Check(_) => th.pc.Checking?
    case Try(_) => th.pc.Trying?
    case Fail(_) => th.pc.Failing?
    case Enroll(_) => th.pc.Admitted?
    case Leave(_) => th.pc.Leaving?
    case Free(_) => th.pc.Holding?
    case Unenroll(_) => th.pc.Released?
  }

  predicate Enabled(s: State, a: Action) {
    if a.Call? then a.t !in s.threads else a.t in s.threads && Ready(s.threads[a.t], a)
  }

  /** The thread at the label `loop`. */
  function Failed(th: Thread): Thread {
    if Priority(th.name) > TIMEOUT_THRESHOLD then
      var th' := th.(timeout := th.timeout + 1, fails := th.fails + 1);
      if th'.timeout >= TIMEOUT then th'.(pc := Leaving(false)) else th'.(pc := Checking(0))
    else th.(pc := Checking(0), fails := th.fails + 1)
  }

  function AfterCheck(q: Queue, name: string, k: nat): Pc {
    if k >= |Blockers(name)| then Trying
    else if Get(q.running, Blockers(name)[k]) > 0 then Failing
    else Checking(k + 1)
  }

  /** What an action makes of the counters and of its own thread; nothing remains of a thread that has returned. */
  datatype Effect = Move(q: Queue, th: Thread) | Gone(q: Queue)

  function Act(q: Queue, th: Thread, a: Action): Effect {
    var name := th.name;
    match a
    case Call(_, _) => Move(IncreaseWaiting(q, name), th)
    case Check(_) => Move(q, th.(pc := if th.pc.Checking? then AfterCheck(q, name, th.pc.k) else th.pc))
    case Try(_) =>
      if Refused(q, name) then Move(q, th.(pc := Failing))
      else Move(q.(slots := q.slots + 1), th.(pc := Admitted))
    case Fail(_) => Move(q, Failed(th))
    case Enroll(_) => Move(IncreaseRunning(q, name), th.(pc := Leaving(true)))
    case Leave(_) =>
      if th.pc == Leaving(true) then Move(DecreaseWaiting(q, name), th.(pc := Holding))
      else Gone(DecreaseWaiting(q, name))
    case Free(_) => Move(q.(slots := q.slots - 1), th.(pc := Released))
    case Unenroll(_) => Gone(DecreaseRunning(q, name))
  }

  /** The thread that takes an action, as it is before. */
  function Actor(s: State, a: Action): Thread
    requires Enabled(s, a)
  {
    if a.Call? then Thread(a.name, Checking(0), 0, 0) else s.threads[a.t]
  }

  function Apply(s: State, a: Action): State
    requires Enabled(s, a)
  {
    match Act(s.q, Actor(s, a), a)
    case Move(q, th') => State(q, s.threads[a.t := th'])
    case Gone(q) => State(q, s.threads - {a.t})
  }

  function Next(s: State, a: Action): Option<State> {
    if Enabled(s, a) then Some(Apply(s, a)) else None
  }

  ghost predicate Run(s: State, actions: seq<Action>, s': State) {
    Runs.Run(Next, s, actions, s')
  }

  // ----- Counting threads -----

  /** Kinds of threads that the counters are about. */
  datatype Kind =
    | Slot                          // between admission and release
    | LowSlot                       // ... and not of the highest priority
    | Waits(p: int)                 // in the waiting queue
    | WaitsNamed(p: int, name: string)
    | Outranks(name: string, p: int) // waiting with a priority below `p`, and not ignored by `name`
    | Runs(name: string)            // in the running queue

  predicate InSlot(pc: Pc) { pc.Admitted? || pc == Leaving(true) || pc.Holding? }

  predicate InWaiting(pc: Pc) { !pc.Holding? && !pc.Released? }

  predicate InRunning(pc: Pc) { pc == Leaving(true) || pc.Holding? || pc.Released? }

  predicate Is(kind: Kind, th: Thread) {
    match kind
    case Slot => InSlot(th.pc)
    case LowSlot => InSlot(th.pc) && Priority(th.name) > HIGHEST_PRIORITY
    case Waits(p) => InWaiting(th.pc) && Priority(th.name) == p
    case WaitsNamed(p, name) => InWaiting(th.pc) && Priority(th.name) == p && th.name == name
    case Outranks(name, p) => InWaiting(th.pc) && Priority(th.name) < p && th.name !in Ignored(name)
    case Runs(name) => InRunning(th.pc) && th.name == name
  }

  function Those(ts: map<nat, Thread>, kind: Kind): set<nat> {
    set t | t in ts && Is(kind, ts[t])
  }

  function Count(ts: map<nat, Thread>, kind: Kind): nat { |Those(ts, kind)| }

  lemma Drop(a: set<nat>, t: nat)
    ensures |a| == |a - {t}| + One(t in a)
  {
    if t !in a {
      assert a - {t} == a;
    }
  }

  lemma AllBut(a: set<nat>, b: set<nat>, t: nat)
    requires forall x :: x != t ==> (x in a <==> x in b)
    ensures |b| == |a| - One(t in a) + One(t in b)
  {
    assert a - {t} == b - {t};
    Drop(a, t);
    Drop(b, t);
  }

  lemma CountMove(ts: map<nat, Thread>, t: nat, th: Thread, kind: Kind)
    ensures Count(ts[t := th], kind) == Count(ts, kind) - One(t in ts && Is(kind, ts[t])) + One(Is(kind, th))
  {
    var a, b := Those(ts, kind), Those(ts[t := th], kind);
    AllBut(a, b, t);
  }

  lemma CountGone(ts: map<nat, Thread>, t: nat, kind: Kind)
    requires t in ts
    ensures Count(ts - {t}, kind) == Count(ts, kind) - One(Is(kind, ts[t]))
  {
    var a := Those(ts, kind);
    assert Those(ts - {t}, kind) == a - {t};
  }

  lemma CountSplits(ts: map<nat, Thread>, whole: Kind, a: Kind, b: Kind)
    requires forall th :: Is(whole, th) <==> Is(a, th) || Is(b, th)
    requires forall th :: !(Is(a, th) && Is(b, th))
    ensures Count(ts, whole) == Count(ts, a) + Count(ts, b)
  {
    assert Those(ts, whole) == Those(ts, a) + Those(ts, b);
    assert Those(ts, a) * Those(ts, b) == {};
  }

  // ----- The invariant -----

  predicate Counted(kind: Kind) { !kind.LowSlot? && !kind.Outranks? }

  /** The counter that is about a kind. */
  function Counter(q: Queue, kind: Kind): int
    requires Counted(kind)
  {
    match kind
    case Slot => q.slots
    case Waits(p) => Get(q.waiting, p)
    case WaitsNamed(p, name) => Get(q.named, (p, name))
    case Runs(name) => Get(q.running, name)
  }

  ghost predicate Agrees(s: State, kind: Kind) {
    Counted(kind) ==> Counter(s.q, kind) == Count(s.threads, kind)
  }

  /** A thread that may time out has failed as often as it counts, and gives up at 30; any other never gives up. */
  predicate Patient(th: Thread) {
    if Priority(th.name) > TIMEOUT_THRESHOLD then
      th.timeout == th.fails && th.fails <= TIMEOUT && (th.fails == TIMEOUT <==> th.pc == Leaving(false))
    else th.timeout == 0 && th.pc != Leaving(false)
  }

  ghost predicate Inv(s: State) {
    (forall kind :: Agrees(s, kind))
    && s.q.slots <= MAX_THREADS
    && Count(s.threads, LowSlot) <= MAX_THREADS - RESERVED
    && forall t :: t in s.threads ==> Patient(s.threads[t])
  }

  lemma StartHolds()
    ensures Inv(START)
  {
    forall kind
      ensures Agrees(START, kind)
    {
      assert Those(START.threads, kind) == {};
    }
    assert Those(START.threads, LowSlot) == {};
  }

  // ----- Every step keeps it -----

  /** Neither guard against a counter of zero fires. */
  predicate Unguarded(q: Queue, th: Thread, a: Action) {
    (a.Leave? ==> Get(q.waiting, Priority(th.name)) > 0) && (a.Unenroll? ==> Get(q.running, th.name) > 0)
  }

  /** Each counter moves with its threads. */
  lemma CounterMoves(q: Queue, th: Thread, a: Action, kind: Kind)
    requires Ready(th, a) && Unguarded(q, th, a) && Counted(kind)
    ensures Counter(Act(q, th, a).q, kind)
         == Counter(q, kind) - One(!a.Call? && Is(kind, th)) + One(Act(q, th, a).Move? && Is(kind, Act(q, th, a).th))
  {
  }

  lemma IsCounted(ts: map<nat, Thread>, t: nat, kind: Kind)
    requires t in ts && Is(kind, ts[t])
    ensures Count(ts, kind) > 0
  {
    assert t in Those(ts, kind);
  }

  /** In any state where the counters agree, the guards against a counter of zero do not fire. */
  lemma GuardsNeverFire(s: State, a: Action)
    requires Inv(s) && Enabled(s, a) && !a.Call?
    ensures Unguarded(s.q, s.threads[a.t], a)
  {
    var th := s.threads[a.t];
    if a.Leave? {
      IsCounted(s.threads, a.t, Waits(Priority(th.name)));
      assert Agrees(s, Waits(Priority(th.name)));
    } else if a.Unenroll? {
      IsCounted(s.threads, a.t, Runs(th.name));
      assert Agrees(s, Runs(th.name));
    }
  }

  /** How the number of threads of a kind changes. */
  lemma CountMoves(s: State, a: Action, kind: Kind)
    requires Enabled(s, a)
    ensures Count(Apply(s, a).threads, kind)
         == Count(s.threads, kind) - One(!a.Call? && Is(kind, Actor(s, a)))
            + One(Act(s.q, Actor(s, a), a).Move? && Is(kind, Act(s.q, Actor(s, a), a).th))
  {
    match Act(s.q, Actor(s, a), a)
    case Move(q, th) => CountMove(s.threads, a.t, th, kind);
    case Gone(q) => CountGone(s.threads, a.t, kind);
  }

  lemma AgreesAfter(s: State, a: Action, kind: Kind)
    requires Inv(s) && Enabled(s, a)
    ensures Agrees(Apply(s, a), kind)
  {
    if Counted(kind) {
      if !a.Call? {
        GuardsNeverFire(s, a);
      }
      assert Agrees(s, kind);
      CounterMoves(s.q, Actor(s, a), a, kind);
      CountMoves(s, a, kind);
    }
  }

  lemma PatientAfter(q: Queue, th: Thread, a: Action)
    requires Ready(th, a) && (a.Call? || Patient(th))
    ensures Act(q, th, a).Move? ==> Patient(Act(q, th, a).th)
  {
  }

  lemma SlotsAfter(s: State, a: Action)
    requires Inv(s) && Enabled(s, a)
    ensures Apply(s, a).q.slots <= MAX_THREADS
    ensures Count(Apply(s, a).threads, LowSlot) <= MAX_THREADS - RESERVED
  {
    CountMoves(s, a, LowSlot);
    if a.Try? && !Refused(s.q, s.threads[a.t].name) {
      assert Agrees(s, Slot);
      LowIsSlot(s.threads);
    }
  }

  lemma LowIsSlot(ts: map<nat, Thread>)
    ensures Count(ts, LowSlot) <= Count(ts, Slot)
  {
    var a, b := Those(ts, LowSlot), Those(ts, Slot);
    assert a <= b;
    assert b == a + (b - a);
  }

  lemma StepKeeps(s: State, a: Action)
    requires Inv(s) && Enabled(s, a)
    ensures Inv(Apply(s, a))
  {
    var s' := Apply(s, a);
    forall kind
      ensures Agrees(s', kind)
    {
      AgreesAfter(s, a, kind);
    }
    SlotsAfter(s, a);
    forall t | t in s'.threads
      ensures Patient(s'.threads[t])
    {
      if t == a.t {
        PatientAfter(s.q, Actor(s, a), a);
      }
    }
  }

  lemma RunKeeps(s: State, actions: seq<Action>, s': State)
    requires Inv(s) && Run(s, actions, s')
    ensures Inv(s')
  {
    forall x, a | Inv(x) && Next(x, a).Some?
      ensures Inv(Next(x, a).value)
    {
      StepKeeps(x, a);
    }
    Runs.RunKeeps(Next, x => Inv(x), s, actions, s');
  }

  // ----- What the counters mean -----

  /** The higher-priority count is the number of waiting threads that outrank the task and are not ignored by it. */
  lemma HigherIsCount(s: State, name: string)
    requires Inv(s)
    ensures Higher(s.q, name) == Count(s.threads, Outranks(name, Priority(name)))
  {
    HigherBelowIsCount(s, name, Priority(name));
  }

  lemma {:induction false} HigherBelowIsCount(s: State, name: string, p: nat)
    requires Inv(s)
    ensures HigherBelow(s.q, name, p) == Count(s.threads, Outranks(name, p))
  {
    if p == 0 {
      assert Those(s.threads, Outranks(name, 0)) == {};
    } else {
      HigherBelowIsCount(s, name, p - 1);
      OneMorePriority(s, name, p - 1);
    }
  }

  lemma OneMorePriority(s: State, name: string, p: nat)
    requires Inv(s)
    ensures Count(s.threads, Outranks(name, p + 1))
         == Count(s.threads, Outranks(name, p)) + Get(s.q.waiting, p) - IgnoredAt(s.q, p, Ignored(name))
  {
    assert Agrees(s, Waits(p));
    if Ignored(name) == [] {
      CountSplits(s.threads, Outranks(name, p + 1), Outranks(name, p), Waits(p));
    } else {
      var other := Ignored(name)[0];
      assert Agrees(s, WaitsNamed(p, other));
      assert IgnoredAt(s.q, p, Ignored(name)) == Get(s.q.named, (p, other));
      OutranksSplits(s.threads, name, p, other);
    }
  }

  lemma OutranksSplits(ts: map<nat, Thread>, name: string, p: nat, other: string)
    requires Ignored(name) == [other]
    ensures Count(ts, Outranks(name, p + 1))
         == Count(ts, Outranks(name, p)) + Count(ts, Waits(p)) - Count(ts, WaitsNamed(p, other))
  {
    forall t | t in ts
      ensures Is(Outranks(name, p + 1), ts[t])
         <==> Is(Outranks(name, p), ts[t]) || (Is(Waits(p), ts[t]) && !Is(WaitsNamed(p, other), ts[t]))
    {
    }
    Sizes(Those(ts, Outranks(name, p + 1)), Those(ts, Outranks(name, p)),
          Those(ts, Waits(p)), Those(ts, WaitsNamed(p, other)));
  }

  lemma Sizes(all: set<nat>, low: set<nat>, at: set<nat>, ign: set<nat>)
    requires forall t :: t in all <==> t in low || (t in at && t !in ign)
    requires forall t :: !(t in low && t in at)
    requires ign <= at
    ensures |all| == |low| + |at| - |ign|
  {
    assert all == low + (at - ign) && low * (at - ign) == {};
  }

  /** Over every run: what the three locks together keep. */
  lemma SafeAlways(actions: seq<Action>, s: State)
    requires Run(START, actions, s)
    ensures s.q.slots == Count(s.threads, Slot) && 0 <= s.q.slots <= 32
    ensures Count(s.threads, LowSlot) <= 31
    ensures forall p :: Get(s.q.waiting, p) == Count(s.threads, Waits(p))
    ensures forall p, name :: Get(s.q.named, (p, name)) == Count(s.threads, WaitsNamed(p, name))
    ensures forall name :: Get(s.q.running, name) == Count(s.threads, Runs(name))
    ensures forall name :: Higher(s.q, name) == Count(s.threads, Outranks(name, Priority(name)))
    ensures forall a :: Enabled(s, a) && !a.Call? ==> Unguarded(s.q, s.threads[a.t], a)
    ensures forall t :: t in s.threads ==> Patient(s.threads[t])
  {
    StartHolds();
    RunKeeps(START, actions, s);
    assert Agrees(s, Slot);
    forall p
      ensures Get(s.q.waiting, p) == Count(s.threads, Waits(p))
    {
      assert Agrees(s, Waits(p));
    }
    forall p, name
      ensures Get(s.q.named, (p, name)) == Count(s.threads, WaitsNamed(p, name))
    {
      assert Agrees(s, WaitsNamed(p, name));
    }
    forall name
      ensures Get(s.q.running, name) == Count(s.threads, Runs(name))
    {
      assert Agrees(s, Runs(name));
    }
    forall name
      ensures Higher(s.q, name) == Count(s.threads, Outranks(name, Priority(name)))
    {
      HigherIsCount(s, name);
    }
    forall a | Enabled(s, a) && !a.Call?
      ensures Unguarded(s.q, s.threads[a.t], a)
    {
      GuardsNeverFire(s, a);
    }
  }

  /**
   A try succeeds exactly if a slot is free, for lower priorities besides the reserved one, and at
   most one other thread outranks it.
   */
  lemma AdmittedIff(actions: seq<Action>, s: State, t: nat)
    requires Run(START, actions, s) && Enabled(s, Try(t))
    ensures var name := s.threads[t].name;
            Apply(s, Try(t)).threads[t].pc.Admitted?
            <==> (if Priority(name) == 0 then Count(s.threads, Slot) < 32
                  else Count(s.threads, Slot) < 31 && Count(s.threads, Outranks(name, Priority(name))) <= 1)
  {
    SafeAlways(actions, s);
    var name := s.threads[t].name;
    assert Higher(s.q, name) == Count(s.threads, Outranks(name, Priority(name)));
  }

  // ----- The same by name -----

  /** The tasks of the middle rank. */
  const MIDDLE := [
    "Ecall_recover_illegal_file", "Ecall_delete_file", "Ecall_validate_file", "Ecall_validate_srd",
    "Ecall_seal_file_start", "Ecall_seal_file", "Ecall_seal_file_end", "Ecall_unseal_file",
    "Ecall_srd_decrease", "Ecall_srd_remove_space", "Ecall_change_srd_task"]

  /** Which task gives way to which. */
  predicate GivesWay(name: string, other: string) {
    if name == "Ecall_srd_increase" then other !in ["Ecall_srd_increase", "Ecall_id_get_info", "Ecall_unseal_file"]
    else if name == "Ecall_id_get_info" then other !in ["Ecall_srd_increase", "Ecall_id_get_info"]
    else name in MIDDLE && other !in MIDDLE + ["Ecall_srd_increase", "Ecall_id_get_info"]
  }

  lemma RankOf(name: string)
    ensures Priority(name) == 1 <==> name in MIDDLE
    ensures Priority(name) == 2 <==> name == "Ecall_srd_increase" || name == "Ecall_id_get_info"
  {
  }

  lemma OutranksByName(th: Thread, name: string)
    ensures Is(Outranks(name, Priority(name)), th) <==> InWaiting(th.pc) && GivesWay(name, th.name)
  {
    RankOf(name);
    RankOf(th.name);
  }

  /**
   Over every run: the tasks that the middle rank and the two lowest tasks give way to are those named
   here, and a task that gives way to none needs only one of the 32 slots.
   */
  lemma AdmittedByName(actions: seq<Action>, s: State, t: nat)
    requires Run(START, actions, s) && Enabled(s, Try(t))
    ensures var name := s.threads[t].name;
            var inside := set u | u in s.threads && InSlot(s.threads[u].pc);
            var ahead := set u | u in s.threads && InWaiting(s.threads[u].pc) && GivesWay(name, s.threads[u].name);
            var lower := name in MIDDLE || name == "Ecall_srd_increase" || name == "Ecall_id_get_info";
            Apply(s, Try(t)).threads[t].pc.Admitted?
            <==> |inside| < 32 && (lower ==> |inside| < 31 && |ahead| <= 1)
  {
    AdmittedIff(actions, s, t);
    var name := s.threads[t].name;
    RankOf(name);
    forall u | u in s.threads
      ensures Is(Outranks(name, Priority(name)), s.threads[u])
         <==> InWaiting(s.threads[u].pc) && GivesWay(name, s.threads[u].name)
    {
      OutranksByName(s.threads[u], name);
    }
    assert Those(s.threads, Outranks(name, Priority(name)))
        == set u | u in s.threads && InWaiting(s.threads[u].pc) && GivesWay(name, s.threads[u].name);
    assert Those(s.threads, Slot) == set u | u in s.threads && InSlot(s.threads[u].pc);
  }

  const SEALS := ["Ecall_seal_file_start", "Ecall_seal_file", "Ecall_seal_file_end"]

  lemma RunningIff(s: State, name: string)
    requires Get(s.q.running, name) == Count(s.threads, Runs(name))
    ensures Get(s.q.running, name) > 0
       <==> exists u :: u in s.threads && InRunning(s.threads[u].pc) && s.threads[u].name == name
  {
    var all := Those(s.threads, Runs(name));
    assert forall u :: u in all <==> u in s.threads && InRunning(s.threads[u].pc) && s.threads[u].name == name;
    if |all| > 0 {
      var u :| u in all;
    }
  }

  /** Over every run: a look turns away exactly Ecall_srd_increase, and only if the task looked for is running. */
  lemma LookByName(actions: seq<Action>, s: State, t: nat)
    requires Run(START, actions, s) && Enabled(s, Check(t))
    ensures var k := s.threads[t].pc.k;
            Apply(s, Check(t)).threads[t].pc.Failing?
            <==> && s.threads[t].name == "Ecall_srd_increase" && k < 3
                 && exists u :: u in s.threads && InRunning(s.threads[u].pc) && s.threads[u].name == SEALS[k]
  {
    SafeAlways(actions, s);
    var k := s.threads[t].pc.k;
    if s.threads[t].name == "Ecall_srd_increase" && k < 3 {
      RunningIff(s, SEALS[k]);
    }
  }

  /** Over every run: who gives up is one of two tasks, and has failed 30 times; nobody else ever does. */
  lemma GivesUpIff(actions: seq<Action>, s: State, t: nat)
    requires Run(START, actions, s) && t in s.threads
    ensures s.threads[t].pc == Leaving(false)
       <==> s.threads[t].name in ["Ecall_srd_increase", "Ecall_id_get_info"] && s.threads[t].fails == 30
  {
    StartHolds();
    RunKeeps(START, actions, s);
    RankOf(s.threads[t].name);
    assert Patient(s.threads[t]);
  }

  // ----- What admission does not promise -----

  ghost predicate Reachable(s: State) {
    exists actions :: Run(START, actions, s)
  }

  lemma Then(s: State, a: Action) returns (s': State)
    requires Reachable(s) && Enabled(s, a)
    ensures Reachable(s') && s' == Apply(s, a)
  {
    var actions :| Run(START, actions, s);
    Runs.RunOn(Next, START, actions, s, a);
    assert Run(START, actions + [a], Apply(s, a));
    s' := Apply(s, a);
  }

  lemma ReachableHolds(s: State)
    requires Reachable(s)
    ensures Inv(s)
  {
    var actions :| Run(START, actions, s);
    StartHolds();
    RunKeeps(START, actions, s);
  }

  /** A waiting thread at its start. */
  function Waiting(name: string): Thread { Thread(name, Checking(0), 0, 0) }

  lemma Calls(s: State, t: nat, name: string) returns (s': State)
    requires Reachable(s) && t !in s.threads
    ensures Reachable(s') && s'.threads == s.threads[t := Waiting(name)]
  {
    s' := Then(s, Call(t, name));
  }

  lemma GetsInside(s: State, t: nat) returns (s': State)
    requires Reachable(s) && t in s.threads && s.threads[t].pc.Admitted?
    ensures Reachable(s') && s'.threads == s.threads[t := s.threads[t].(pc := Holding)]
  {
    var s1 := Then(s, Enroll(t));
    assert s1.threads == s.threads[t := s.threads[t].(pc := Leaving(true))];
    s' := Then(s1, Leave(t));
  }

  lemma FewThreads(ts: map<nat, Thread>, kind: Kind)
    requires ts.Keys <= {0, 1}
    ensures Count(ts, kind) <= 2
    ensures (0 in ts ==> !Is(kind, ts[0])) && (1 in ts ==> !Is(kind, ts[1])) ==> Count(ts, kind) == 0
    ensures (0 in ts ==> !Is(kind, ts[0])) ==> Count(ts, kind) <= 1
  {
    var those := Those(ts, kind);
    assert those <= {0, 1};
    Drop(those, 0);
    Drop(those - {0}, 1);
    assert those - {0} - {1} == {};
  }

  /** With two threads a try succeeds if the other does not outrank it, or only one does. */
  lemma TryOfTwo(s: State, t: nat) returns (s': State)
    requires Reachable(s) && s.threads.Keys == {0, 1} && t in s.threads && s.threads[t].pc.Trying?
    ensures Reachable(s') && s'.threads == s.threads[t := s.threads[t].(pc := Admitted)]
  {
    ReachableHolds(s);
    var name := s.threads[t].name;
    assert Agrees(s, Slot);
    HigherIsCount(s, name);
    FewThreads(s.threads, Slot);
    OneOther(s.threads, t, name);
    s' := Then(s, Try(t));
  }

  lemma OneOther(ts: map<nat, Thread>, t: nat, name: string)
    requires ts.Keys == {0, 1} && t in ts && ts[t].name == name
    ensures Count(ts, Outranks(name, Priority(name))) <= 1
  {
    var those := Those(ts, Outranks(name, Priority(name)));
    assert those <= {0, 1} && t !in those;
    Drop(those, 0);
    Drop(those - {0}, 1);
    assert those - {0} - {1} == {};
  }

  /** A look at a blocker passes if no thread of that task is in the running queue. */
  lemma LookPasses(s: State, t: nat) returns (s': State)
    requires Reachable(s) && t in s.threads && s.threads[t].pc.Checking?
    requires var th := s.threads[t];
             th.pc.k < |Blockers(th.name)| ==> Count(s.threads, Runs(Blockers(th.name)[th.pc.k])) == 0
    ensures var th := s.threads[t];
            Reachable(s')
            && var pc := if th.pc.k < |Blockers(th.name)| then Checking(th.pc.k + 1) else Trying;
               s'.threads == s.threads[t := th.(pc := pc)]
  {
    ReachableHolds(s);
    var th := s.threads[t];
    if th.pc.k < |Blockers(th.name)| {
      assert Agrees(s, Runs(Blockers(th.name)[th.pc.k]));
    }
    s' := Then(s, Check(t));
  }

  /** There are two threads, 0 and 1. */
  predicate Two(s: State, a: Thread, b: Thread) {
    s.threads.Keys == {0, 1} && s.threads[0] == a && s.threads[1] == b
  }

  lemma Second(s: State, a: Thread, name: string) returns (s': State)
    requires Reachable(s) && s.threads.Keys == {0} && s.threads[0] == a
    ensures Reachable(s') && Two(s', a, Waiting(name))
  {
    s' := Calls(s, 1, name);
  }

  lemma First(name: string) returns (s: State)
    ensures Reachable(s) && s.threads.Keys == {0} && s.threads[0] == Waiting(name)
  {
    assert Run(START, [], START);
    s := Calls(START, 0, name);
  }

  /** A task may pass one that outranks it: for every two tasks, the lower one first in line is admitted. */
  lemma LowerPassesOne(low: string, high: string) returns (s: State)
    requires Priority(high) < Priority(low) && Blockers(low) == []
    ensures Reachable(s) && Two(s, Waiting(low).(pc := Admitted), Waiting(high))
  {
    s := First(low);
    s := Second(s, Waiting(low), high);
    s := LookPasses(s, 0);
    s := TryOfTwo(s, 0);
  }

  const SRD_INCREASE := "Ecall_srd_increase"
  const SEAL_FILE := "Ecall_seal_file"

  /** All looks of a srd thread pass while it is alone. */
  lemma LooksPassAlone() returns (s: State)
    ensures Reachable(s) && s.threads.Keys == {0} && s.threads[0] == Waiting(SRD_INCREASE).(pc := Trying)
  {
    s := First(SRD_INCREASE);
    s := LookAlone(s, 0);
    s := LookAlone(s, 1);
    s := LookAlone(s, 2);
    s := LookAlone(s, 3);
  }

  lemma LookAlone(s: State, k: nat) returns (s': State)
    requires Reachable(s) && s.threads.Keys == {0} && k <= 3
    requires s.threads[0] == Waiting(SRD_INCREASE).(pc := Checking(k))
    ensures Reachable(s') && s'.threads.Keys == {0}
    ensures s'.threads[0] == Waiting(SRD_INCREASE).(pc := if k < 3 then Checking(k + 1) else Trying)
  {
    if k < 3 {
      FewThreads(s.threads, Runs(Blockers(SRD_INCREASE)[k]));
    }
    s' := LookPasses(s, 0);
  }

  lemma GoesFirst(s: State, a: Thread, b: Thread) returns (s': State)
    requires Reachable(s) && Two(s, a, b) && a.pc.Trying? && b.pc.Trying?
    ensures Reachable(s') && Two(s', a.(pc := Admitted), b.(pc := Holding))
  {
    var s1 := TryOfTwo(s, 1);
    var s2 := GetsInside(s1, 1);
    s' := TryOfTwo(s2, 0);
  }

  /** Any task without blockers gets inside before a thread that is about to try, which then follows. */
  lemma Overtakes(s: State, first: Thread, name: string) returns (s': State)
    requires Reachable(s) && s.threads.Keys == {0} && s.threads[0] == first && first.pc.Trying? && Blockers(name) == []
    ensures Reachable(s') && Two(s', first.(pc := Admitted), Waiting(name).(pc := Holding))
  {
    var s1 := Second(s, first, name);
    var s2 := LookPasses(s1, 1);
    assert Two(s2, first, Waiting(name).(pc := Trying));
    s' := GoesFirst(s2, first, Waiting(name).(pc := Trying));
  }

  /** A blocking task can get in between the looks and the try: srd and sealing are then inside together. */
  lemma BlockerOvertakes() returns (s: State)
    ensures Reachable(s) && Two(s, Waiting(SRD_INCREASE).(pc := Admitted), Waiting(SEAL_FILE).(pc := Holding))
  {
    s := LooksPassAlone();
    s := Overtakes(s, Waiting(SRD_INCREASE).(pc := Trying), SEAL_FILE);
  }

  /** The looks from the k-th on, and the try, with no other thread in between. */
  function Unbroken(t: nat, looks: nat): seq<Action> {
    if looks == 0 then [Try(t)] else [Check(t)] + Unbroken(t, looks - 1)
  }

  /** The counters say that no blocker from the k-th on is in the running queue. */
  predicate NoneCounted(q: Queue, bs: seq<string>, k: nat) {
    forall i :: k <= i < |bs| ==> Get(q.running, bs[i]) <= 0
  }

  lemma {:induction false} LooksFoundNone(s: State, t: nat, bs: seq<string>, k: nat, s': State)
    requires t in s.threads && s.threads[t].pc == Checking(k) && Blockers(s.threads[t].name) == bs && k <= |bs|
    requires Run(s, Unbroken(t, |bs| - k + 1), s')
    ensures t in s'.threads && s'.threads == s.threads[t := s'.threads[t]] && s'.threads[t].name == s.threads[t].name
    ensures NoneCounted(s.q, bs, k)
    decreases |bs| - k
  {
    var n := |bs| - k;
    var s1 := Apply(s, Check(t));
    UnbrokenStarts(s, t, n, s');
    if n == 0 {
      LastTry(s1, t, s');
    } else {
      UnbrokenStarts(s1, t, n - 1, s');
      LooksFoundNone(s1, t, bs, k + 1, s');
    }
  }

  /** A thread of a blocking task holds a slot. */
  ghost predicate BlockerInside(ts: map<nat, Thread>, bs: seq<string>) {
    exists i :: i in ts && ts[i].name in bs && InSlot(ts[i].pc)
  }

  /** A thread of a blocking task has just got its slot: it is not yet in the running queue. */
  ghost predicate BlockerEntering(ts: map<nat, Thread>, bs: seq<string>) {
    exists i :: i in ts && ts[i].name in bs && ts[i].pc.Admitted?
  }

  lemma NoBlockerBlocksItself(name: string)
    ensures name !in Blockers(name)
  {
  }

  /** A blocking task with a slot that the counters do not show is one that is about to be counted. */
  lemma InsideIsEntering(s: State, bs: seq<string>)
    requires Inv(s) && NoneCounted(s.q, bs, 0)
    ensures BlockerInside(s.threads, bs) <==> BlockerEntering(s.threads, bs)
  {
    if i :| i in s.threads && s.threads[i].name in bs && InSlot(s.threads[i].pc) {
      var name := s.threads[i].name;
      assert Agrees(s, Runs(name));
      if !s.threads[i].pc.Admitted? {
        IsCounted(s.threads, i, Runs(name));
      }
    }
  }

  lemma InsideElsewhere(ts: map<nat, Thread>, t: nat, th: Thread, bs: seq<string>)
    requires t in ts && ts[t].name !in bs && th.name !in bs
    ensures BlockerInside(ts[t := th], bs) <==> BlockerInside(ts, bs)
  {
    if BlockerInside(ts, bs) {
      var i :| i in ts && ts[i].name in bs && InSlot(ts[i].pc);
      assert i in ts[t := th] && ts[t := th][i] == ts[i];
    }
  }

  /**
   When a thread gets through its looks and its try with nothing in between, a thread of a blocking
   task then holds a slot if and only if one had just got it before: its slot does not yet show.
   */
  lemma UnbrokenLooksExcludeIff(s: State, t: nat, s': State)
    requires Inv(s) && t in s.threads && s.threads[t].pc == Checking(0)
    requires Run(s, Unbroken(t, |Blockers(s.threads[t].name)| + 1), s')
    ensures var bs := Blockers(s.threads[t].name);
            BlockerInside(s'.threads, bs) <==> BlockerEntering(s.threads, bs)
  {
    var bs := Blockers(s.threads[t].name);
    NoBlockerBlocksItself(s.threads[t].name);
    LooksFoundNone(s, t, bs, 0, s');
    InsideIsEntering(s, bs);
    InsideElsewhere(s.threads, t, s'.threads[t], bs);
  }

  lemma UnbrokenStarts(s: State, t: nat, n: nat, s': State)
    requires Run(s, Unbroken(t, n + 1), s')
    ensures Enabled(s, Check(t)) && Run(Apply(s, Check(t)), Unbroken(t, n), s')
  {
    Runs.RunFirst(Next, s, Check(t), Unbroken(t, n), s');
  }

  lemma LastTry(s: State, t: nat, s': State)
    requires Run(s, Unbroken(t, 0), s')
    ensures Enabled(s, Try(t)) && s' == Apply(s, Try(t))
  {
    assert [Try(t)] == [Try(t)] + [];
    Runs.RunFirst(Next, s, Try(t), [], s');
  }

  lemma {:induction false} LooksPassUnbroken(s: State, t: nat, bs: seq<string>, k: nat) returns (s': State)
    requires t in s.threads && s.threads[t].pc == Checking(k) && Blockers(s.threads[t].name) == bs && k <= |bs|
    requires NoneCounted(s.q, bs, k)
    ensures Run(s, Unbroken(t, |bs| - k + 1), s')
    ensures var pc := if Refused(s.q, s.threads[t].name) then Failing else Admitted;
            s'.threads == s.threads[t := s.threads[t].(pc := pc)]
    decreases |bs| - k
  {
    var s1 := Apply(s, Check(t));
    var n := |bs| - k;
    if n == 0 {
      s' := Apply(s1, Try(t));
      assert Unbroken(t, 0)[1..] == [] && Run(s1, Unbroken(t, 0), s');
    } else {
      s' := LooksPassUnbroken(s1, t, bs, k + 1);
    }
    assert Unbroken(t, n + 1)[0] == Check(t) && Unbroken(t, n + 1)[1..] == Unbroken(t, n);
  }

  lemma SealIsEntering() returns (s: State)
    ensures Reachable(s) && Two(s, Waiting(SEAL_FILE).(pc := Admitted), Waiting(SRD_INCREASE))
  {
    s := First(SEAL_FILE);
    s := Second(s, Waiting(SEAL_FILE), SRD_INCREASE);
    s := LookPasses(s, 0);
    s := TryOfTwo(s, 0);
  }

  /** Both tasks can get inside so: the sealing task has its slot, but is not counted when the looks pass. */
  lemma EnteringBlockerIsMissed() returns (s: State, s': State)
    ensures Reachable(s) && Two(s, Waiting(SEAL_FILE).(pc := Admitted), Waiting(SRD_INCREASE))
    ensures Run(s, Unbroken(1, 4), s')
    ensures Two(s', Waiting(SEAL_FILE).(pc := Admitted), Waiting(SRD_INCREASE).(pc := Admitted))
  {
    s := SealIsEntering();
    s' := MissesBoth(s, Waiting(SEAL_FILE).(pc := Admitted));
  }

  lemma MissesBoth(s: State, other: Thread) returns (s': State)
    requires Reachable(s) && Two(s, other, Waiting(SRD_INCREASE)) && !InRunning(other.pc)
    ensures Run(s, Unbroken(1, 4), s') && Two(s', other, Waiting(SRD_INCREASE).(pc := Admitted))
  {
    ReachableHolds(s);
    NothingRuns(s);
    NotRefused(s, SRD_INCREASE);
    var bs := Blockers(SRD_INCREASE);
    assert |bs| == 3;
    s' := LooksPassUnbroken(s, 1, bs, 0);
  }

  lemma NothingRuns(s: State)
    requires Inv(s) && s.threads.Keys == {0, 1} && !InRunning(s.threads[0].pc) && !InRunning(s.threads[1].pc)
    ensures NoneCounted(s.q, Blockers(SRD_INCREASE), 0)
  {
    forall i | 0 <= i < |Blockers(SRD_INCREASE)|
      ensures Get(s.q.running, Blockers(SRD_INCREASE)[i]) <= 0
    {
      var b := Blockers(SRD_INCREASE)[i];
      FewThreads(s.threads, Runs(b));
      assert Agrees(s, Runs(b));
    }
  }

  lemma NotRefused(s: State, name: string)
    requires Inv(s) && s.threads.Keys == {0, 1} && s.threads[1].name == name
    ensures !Refused(s.q, name)
  {
    assert Agrees(s, Slot);
    HigherIsCount(s, name);
    FewThreads(s.threads, Slot);
    OneOther(s.threads, 1, name);
  }

  /** How often threads of a task enter the running queue in a run, less how often they leave it. */
  ghost function NetEnrolled(s: State, actions: seq<Action>, b: string): int
    decreases |actions|
  {
    if actions == [] || !Enabled(s, actions[0]) then 0
    else
      EnrolledBy(s, actions[0], b) + NetEnrolled(Apply(s, actions[0]), actions[1..], b)
  }

  function EnrolledBy(s: State, a: Action, b: string): int
    requires Enabled(s, a)
  {
    if Actor(s, a).name != b then 0 else if a.Enroll? then 1 else if a.Unenroll? then -1 else 0
  }

  lemma {:induction false} RunningChanges(s: State, actions: seq<Action>, s': State, b: string)
    requires Run(s, actions, s')
    ensures Count(s'.threads, Runs(b)) == Count(s.threads, Runs(b)) + NetEnrolled(s, actions, b)
    decreases |actions|
  {
    if actions != [] {
      RunningMoves(s, actions[0], b);
      RunningChanges(Apply(s, actions[0]), actions[1..], s', b);
    }
  }

  lemma RunningMoves(s: State, a: Action, b: string)
    requires Enabled(s, a)
    ensures Count(Apply(s, a).threads, Runs(b))
         == Count(s.threads, Runs(b)) + EnrolledBy(s, a, b)
  {
    CountMoves(s, a, Runs(b));
  }

  /**
   In any run from a look that passes to the try, or to any other time, a blocking task is then in
   the running queue if and only if its threads have entered it more often than they have left it.
   */
  lemma BlockerRunsIff(s: State, t: nat, actions: seq<Action>, s': State)
    requires Inv(s) && Enabled(s, Check(t)) && s.threads[t].pc.k < |Blockers(s.threads[t].name)|
    requires !Apply(s, Check(t)).threads[t].pc.Failing? && Run(Apply(s, Check(t)), actions, s')
    ensures var b := Blockers(s.threads[t].name)[s.threads[t].pc.k];
            Count(s'.threads, Runs(b)) > 0 <==> NetEnrolled(Apply(s, Check(t)), actions, b) > 0
  {
    var b := Blockers(s.threads[t].name)[s.threads[t].pc.k];
    assert Agrees(s, Runs(b));
    RunningMoves(s, Check(t), b);
    RunningChanges(Apply(s, Check(t)), actions, s', b);
  }

  // ----- The code -----

  /**
   The counters as they are kept by the code. Each method is a critical section. The threads are
   not part of the program: they record where each caller stands, so that a method takes the step
   of its caller and keeps the invariant.
   */
  class EnclaveQueue {
    var runningTaskNum: int
    var waiting: map<int, int>
    var named: map<(int, string), int>
    var running: map<string, int>
    ghost var threads: map<nat, Thread>

    ghost function Now(): State
      reads this
    {
      State(Queue(runningTaskNum, waiting, named, running), threads)
    }

    ghost predicate Valid()
      reads this
    {
      Inv(Now())
    }

    constructor ()
      ensures Valid() && Now() == START
    {
      runningTaskNum, waiting, named, running, threads := 0, map[], map[], map[], map[];
      new;
      StartHolds();
    }

    /** The step of a thread, recorded. */
    ghost method Record(a: Action, before: State)
      requires Inv(before) && Enabled(before, a) && threads == before.threads
      requires Queue(runningTaskNum, waiting, named, running) == Act(before.q, Actor(before, a), a).q
      modifies this`threads
      ensures Valid() && Now() == Apply(before, a)
    {
      threads := Apply(before, a).threads;
      StepKeeps(before, a);
    }

    method IncreaseWaitingQueue(name: string, ghost t: nat)
      requires Valid() && Enabled(Now(), Call(t, name))
      modifies this
      ensures Valid() && Now() == Apply(old(Now()), Call(t, name))
    {
      ghost var before := Now();
      var priority := Priority(name);
      waiting := Add(waiting, priority, 1);
      named := Add(named, (priority, name), 1);
      Record(Call(t, name), before);
    }

    method DecreaseWaitingQueue(name: string, ghost t: nat)
      requires Valid() && Enabled(Now(), Leave(t)) && threads[t].name == name
      modifies this
      ensures Valid() && Now() == Apply(old(Now()), Leave(t))
    {
      ghost var before := Now();
      var priority := Priority(name);
      if Get(waiting, priority) != 0 {
        waiting := Add(waiting, priority, -1);
        named := Add(named, (priority, name), -1);
      }
      Record(Leave(t), before);
    }

    method IncreaseRunningQueue(name: string, ghost t: nat)
      requires Valid() && Enabled(Now(), Enroll(t)) && threads[t].name == name
      modifies this
      ensures Valid() && Now() == Apply(old(Now()), Enroll(t))
    {
      ghost var before := Now();
      if name !in running {
        running := running[name := 0];
      }
      running := running[name := running[name] + 1];
      assert running == Add(before.q.running, name, 1);
      Record(Enroll(t), before);
    }

    method DecreaseRunningQueue(name: string, ghost t: nat)
      requires Valid() && Enabled(Now(), Unenroll(t)) && threads[t].name == name
      modifies this
      ensures Valid() && Now() == Apply(old(Now()), Unenroll(t))
    {
      ghost var before := Now();
      if Get(running, name) != 0 {
        running := Add(running, name, -1);
      }
      Record(Unenroll(t), before);
    }

    /** One look at a blocking task; no blocker is left when `k` has passed the last. */
    method CheckBlocker(name: string, k: nat, ghost t: nat) returns (blocked: bool)
      requires Valid() && Enabled(Now(), Check(t)) && threads[t].name == name && threads[t].pc == Checking(k)
      modifies this`threads
      ensures Valid() && Now() == Apply(old(Now()), Check(t))
      ensures blocked <==> k < |Blockers(name)| && Count(old(threads), Runs(Blockers(name)[k])) > 0
    {
      ghost var before := Now();
      blocked := k < |Blockers(name)| && Get(running, Blockers(name)[k]) > 0;
      assert k < |Blockers(name)| ==> Agrees(before, Runs(Blockers(name)[k]));
      Record(Check(t), before);
    }

    /** get_higher_prio_waiting_task_num: how many waiting threads outrank a task. */
    method HigherPrioWaiting(name: string) returns (ret: int)
      requires Valid()
      ensures ret == Higher(Now().q, name) == Count(threads, Outranks(name, Priority(name)))
    {
      ret := 0;
      var priority := Priority(name);
      ghost var q := Now().q;
      while priority > 0
        invariant 0 <= priority && ret + HigherBelow(q, name, priority) == Higher(q, name)
      {
        priority := priority - 1;
        ret := ret + Get(waiting, priority);
        var ignored := Ignored(name);
        ghost var base := ret;
        for i := 0 to |ignored|
          invariant ret == base - IgnoredAt(q, priority, ignored[..i])
        {
          assert ignored[..i + 1][..i] == ignored[..i];
          ret := ret - Get(named, (priority, ignored[i]));
        }
        assert ignored[..|ignored|] == ignored;
      }
      HigherIsCount(Now(), name);
    }

    /** The section of try_get_enclave that takes a slot. */
    method TrySlot(name: string, ghost t: nat) returns (won: bool)
      requires Valid() && Enabled(Now(), Try(t)) && threads[t].name == name
      modifies this
      ensures Valid() && Now() == Apply(old(Now()), Try(t))
      ensures won <==> threads[t].pc.Admitted?
    {
      ghost var before := Now();
      var higher := HigherPrioWaiting(name);
      won := !(runningTaskNum >= MAX_THREADS
               || (Priority(name) > HIGHEST_PRIORITY && MAX_THREADS - runningTaskNum <= RESERVED)
               || higher - PERMANENT_TASKS > 0);
      if won {
        runningTaskNum := runningTaskNum + 1;
      }
      Record(Try(t), before);
    }

    /** The label `loop`: whether the caller gives up. */
    method CountFailure(name: string, timeout: nat, ghost t: nat) returns (timeout': nat, giveUp: bool)
      requires Valid() && Enabled(Now(), Fail(t)) && threads[t].name == name && threads[t].timeout == timeout
      modifies this`threads
      ensures Valid() && Now() == Apply(old(Now()), Fail(t))
      ensures threads[t].timeout == timeout' && (giveUp <==> threads[t].pc == Leaving(false))
      ensures giveUp <==> Priority(name) > TIMEOUT_THRESHOLD && threads[t].fails == TIMEOUT
    {
      ghost var before := Now();
      timeout', giveUp := timeout, false;
      if Priority(name) > TIMEOUT_THRESHOLD {
        timeout' := timeout' + 1;
        giveUp := timeout' >= TIMEOUT;
      }
      assert Patient(before.threads[t]);
      Record(Fail(t), before);
      assert Patient(threads[t]);
    }

    /** The first section of free_enclave. */
    method FreeSlot(ghost t: nat)
      requires Valid() && Enabled(Now(), Free(t))
      modifies this
      ensures Valid() && Now() == Apply(old(Now()), Free(t))
    {
      ghost var before := Now();
      runningTaskNum := runningTaskNum - 1;
      Record(Free(t), before);
    }
  }
}
