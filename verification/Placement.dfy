/** Where every process is, with the ones that callers hold, and which steps lose somebody. */
module Placement {
  import opened Lists
  import opened ProcQueue
  import opened Semaphores
  import opened Termination
  import opened SystemState
  import opened Operations
  import opened Killing
  import opened Runs

  /** The processes on no list. */
  ghost function Loose(st: Sys): set<Pcb> {
    set x | x in st.Table() && st.Detached(x)
  }

  ghost function Current(st: Sys): set<Pcb> {
    if st.current == null then {} else {st.current}
  }

  /** held are the processes in the hands of callers: on no list, and together with the current one all that are. */
  ghost predicate Placed(st: Sys, held: set<Pcb>) {
    held <= Loose(st) <= held + Current(st)
  }

  ghost function Handed(reply: Reply): set<Pcb> {
    match reply
    case Process(p) => if p == null then {} else {p}
    case _ => {}
  }

  /** The process a step takes off a list and hands to its caller. */
  ghost function Given(st: Sys, step: Step): set<Pcb> {
    if step.AllocPcb? || step.RemoveBlocked? || step.OutBlocked? then Handed(ReplyTo(st, step)) else {}
  }

  /** The process a step takes over and puts on a list. */
  ghost function Taken(st: Sys, step: Step): set<Pcb> {
    match step
    case FreePcb(p) => {p}
    case InsertReady(p) => {p}
    case InsertBlocked(s, p) => {p}
    case Scheduler(control) => if control in {0, 1} then Current(st) else {}
    case _ => {}
  }

  ghost function HeldAfter(st: Sys, held: set<Pcb>, step: Step): set<Pcb> {
    held - Taken(st, step) + Given(st, step)
  }

  /** The members of the queue that has p as its tail, without p. */
  ghost function AheadOf(b: Queues, p: Pcb): set<Pcb> {
    set s, x | s in b && x in b[s] && Last(b[s]) == p && x != p :: x
  }

  /** The processes that outProcQ, taking out a tail, takes off their queue with it. */
  ghost function Lost(st: Sys, step: Step): set<Pcb>
    requires Enabled(st, step)
  {
    match step
    case OutBlocked(p) => AheadOf(st.blocked, p)
    case TerminateProcess =>
      if st.current != null && st.ready != [] && st.current == Last(st.ready)
      then Elems(st.ready) - Elems(Victims(st.forest, st.current)) else {}
    case _ => {}
  }

  /** What a step has to respect for nobody to be lost. */
  ghost predicate Careful(st: Sys, held: set<Pcb>, step: Step)
    requires Enabled(st, step)
  {
    match step
    case Scheduler(control) => control == 9 ==> st.current == null || !st.Detached(st.current) || st.current in held
    case _ => Lost(st, step) <= Current(st)
  }

  // ---------- what each step does to the processes on no list ----------

  lemma LooseList(st: Sys, step: Step)
    requires st.Sound() && Enabled(st, step)
    requires step.AllocPcb? || step.FreePcb? || step.InsertReady? || step.CreateProcess?
    requires Next(st, step).status == Running
    ensures Loose(Next(st, step)) == Loose(st) - Taken(st, step) + Given(st, step)
  {
    var t := Next(st, step);
    match step
    case FreePcb(p) =>
      assert forall x :: x in t.free <==> x == p || x in st.free;
    case InsertReady(p) =>
      assert forall x :: x in t.ready <==> x == p || x in st.ready;
    case AllocPcb =>
      if st.free != [] {
        PooledElsewhere(st, st.free[0]);
        assert st.free == [st.free[0]] + t.free;
        assert forall x :: x in st.free <==> x == st.free[0] || x in t.free;
      }
    case CreateProcess =>
      if st.free != [] {
        PooledElsewhere(st, st.free[0]);
        assert st.free == [st.free[0]] + t.free;
        assert forall x :: x in st.free <==> x == st.free[0] || x in t.free;
        assert forall x :: x in t.ready <==> x == st.free[0] || x in st.ready;
      }
  }

  lemma LooseBlocked(st: Sys, step: Step)
    requires st.Sound() && Enabled(st, step)
    requires step.InsertBlocked? || step.RemoveBlocked? || step.OutBlocked?
    requires Next(st, step).status == Running
    ensures Loose(Next(st, step)) == Loose(st) - Taken(st, step) + Given(st, step) + Lost(st, step)
  {
    ListsApart(st);
    match step
    case InsertBlocked(s, p) => BlockWf(st.blocked, s, p);
    case RemoveBlocked(s) =>
      WakeWf(st.blocked, s);
      if QueueOf(st.blocked, s) != [] {
        assert st.blocked[s][0] in st.blocked[s];
      }
    case OutBlocked(p) =>
      if p in Members(st.blocked) {
        var s :| s in st.blocked && p in st.blocked[s];
        UnblockMember(st.blocked, s, p);
        AheadOfTail(st.blocked, s, p);
      } else {
        UnblockStranger(st.blocked, p);
        forall s | s in st.blocked ensures st.blocked[s] != [] && Last(st.blocked[s]) != p {
          assert QueueWf(st.blocked, s) && Last(st.blocked[s]) in st.blocked[s];
        }
      }
  }

  lemma AheadOfTail(b: Queues, s: nat, p: Pcb)
    requires QueuesWf(b) && s in b && p in b[s]
    ensures AheadOf(b, p) == if p == Last(b[s]) then Elems(b[s]) - {p} else {}
  {
    forall t | t in b ensures b[t] != [] && (Last(b[t]) == p ==> t == s) {
      assert QueueWf(b, t) && Last(b[t]) in b[t];
    }
  }

  lemma LooseTerminate(st: Sys)
    requires st.Sound() && Enabled(st, TerminateProcess) && Next(st, TerminateProcess).status == Running
    ensures Loose(Next(st, TerminateProcess)) == Loose(st) + Lost(st, TerminateProcess)
    ensures Lost(st, TerminateProcess) !! Current(st)
    ensures Next(st, TerminateProcess).current == st.current
  {
    var vs, t := Victims(st.forest, st.current), Next(st, TerminateProcess);
    TerminateExact(st);
    TerminateReadyExact(st);
    KillAllSound(st, vs);
    KillAllBlocked(st, vs);
    ReadyAfterElems(st.ready, vs);
    assert st.current in vs;
    forall x ensures x in Loose(t) <==> x in Loose(st) || x in Elems(st.ready) - Elems(vs) - Elems(t.ready) {
      KilledOrKept(st, t, vs, x);
    }
  }

  /** Where x is after a completed terminateProcess. */
  lemma KilledOrKept(st: Sys, t: Sys, vs: seq<Pcb>, x: Pcb)
    requires st.Sound() && t.Table() == st.Table() && t.blocked == st.blocked
    requires Elems(t.free) == Elems(vs) + Elems(st.free) && Elems(t.ready) <= Elems(st.ready)
    requires forall v :: v in vs ==> v in st.ready
    ensures t.Detached(x) <==> st.Detached(x) || x in Elems(st.ready) - Elems(vs) - Elems(t.ready)
  {
    ListsApart(st);
    assert x in t.free <==> x in Elems(t.free);
    assert x in st.free <==> x in Elems(st.free);
    assert x in st.ready <==> x in Elems(st.ready);
    assert x in t.ready <==> x in Elems(t.ready);
  }

  /** A dispatch takes the head of the ready queue off every list, and nobody else. */
  lemma LooseDispatch(st: Sys)
    requires st.Sound() && st.ready != []
    ensures Loose(Dispatch(st)) == Loose(st) + {st.ready[0]} && st.ready[0] !in Loose(st)
  {
    var t := Dispatch(st);
    ListsApart(st);
    assert st.ready == [st.ready[0]] + t.ready && st.ready[0] in Elems(st.ready);
    assert forall x :: x in st.ready <==> x == st.ready[0] || x in t.ready;
  }

  lemma LooseSchedule(st: Sys, control: int)
    requires st.Sound() && Enabled(st, Scheduler(control)) && Schedule(st, control).status == Running
    ensures control in {0, 1, 9} ==>
              var t := Schedule(st, control);
              && t.current != null && t.current !in Loose(st) - Taken(st, Scheduler(control))
              && Loose(t) == Loose(st) - Taken(st, Scheduler(control)) + {t.current}
  {
    if control == 0 {
      var u := st.(free := [st.current] + st.free, count := st.count - 1);
      NoDupConcat([st.current], st.free);
      assert forall x :: x in u.free <==> x == st.current || x in st.free;
      LooseDispatch(u);
    } else if control == 1 {
      var u := st.(ready := st.ready + [st.current]);
      NoDupConcat(st.ready, [st.current]);
      assert forall x :: x in u.ready <==> x == st.current || x in st.ready;
      LooseDispatch(u);
    } else if control == 9 {
      LooseDispatch(st);
    }
  }

  // ---------- nobody is lost ----------

  /** The arithmetic of a step that does not dispatch. */
  lemma StayPlaced(held: set<Pcb>, loose: set<Pcb>, current: set<Pcb>, taken: set<Pcb>, given: set<Pcb>, lost: set<Pcb>)
    requires held <= loose <= held + current && lost !! loose && lost !! given
    ensures held - taken + given <= loose - taken + given + lost
    ensures loose - taken + given + lost <= held - taken + given + current <==> lost <= current
  {
    if loose - taken + given + lost <= held - taken + given + current {
      forall x | x in lost ensures x in current {
        assert x in loose - taken + given + lost;
      }
    }
  }

  /** The arithmetic of a dispatch. */
  lemma DispatchPlaced(held: set<Pcb>, loose: set<Pcb>, current: set<Pcb>, taken: set<Pcb>, next: Pcb)
    requires held <= loose <= held + current && next !in loose - taken && (taken == {} || taken == current)
    ensures held - taken <= loose - taken + {next}
    ensures loose - taken + {next} <= held - taken + {next} <==> (taken == {} ==> loose <= held)
  {
    if taken == {} && loose - taken + {next} <= held - taken + {next} {
      forall x | x in loose ensures x in held {
        assert x in loose - taken + {next};
      }
    }
  }

  /** The guard is exact: a step that goes on running keeps everybody in place if and only if it is careful. */
  lemma PlacedExact(st: Sys, held: set<Pcb>, step: Step)
    requires st.Sound() && Placed(st, held) && Enabled(st, step)
    requires Next(st, step).status == Running
    ensures Placed(Next(st, step), HeldAfter(st, held, step)) <==> Careful(st, held, step)
  {
    if step.Scheduler? && step.control in {0, 1, 9} {
      SchedulePlaced(st, held, step.control);
    } else {
      LooseExact(st, step);
      LostListed(st, step);
      StayPlaced(held, Loose(st), Current(st), Taken(st, step), Given(st, step), Lost(st, step));
    }
  }

  lemma SchedulePlaced(st: Sys, held: set<Pcb>, control: int)
    requires st.Sound() && Placed(st, held) && Enabled(st, Scheduler(control)) && control in {0, 1, 9}
    requires Schedule(st, control).status == Running
    ensures Placed(Schedule(st, control), HeldAfter(st, held, Scheduler(control))) <==>
              Careful(st, held, Scheduler(control))
  {
    var t, taken := Schedule(st, control), Taken(st, Scheduler(control));
    LooseSchedule(st, control);
    DispatchPlaced(held, Loose(st), Current(st), taken, t.current);
    assert HeldAfter(st, held, Scheduler(control)) == held - taken;
    assert Loose(st) <= held <==> st.current == null || !st.Detached(st.current) || st.current in held;
  }

  lemma LooseExact(st: Sys, step: Step)
    requires st.Sound() && Enabled(st, step) && Next(st, step).status == Running
    requires !(step.Scheduler? && step.control in {0, 1, 9})
    ensures Loose(Next(st, step)) == Loose(st) - Taken(st, step) + Given(st, step) + Lost(st, step)
  {
    match step
    case TerminateProcess => LooseTerminate(st);
    case Scheduler(control) =>
    case InsertBlocked(s, p) => LooseBlocked(st, step);
    case RemoveBlocked(s) => LooseBlocked(st, step);
    case OutBlocked(p) => LooseBlocked(st, step);
    case InsertChild(prnt, p) => ForestStepSound(st, step);
    case OutChild(p) => ForestStepSound(st, step);
    case RemoveChild(p) => ForestStepSound(st, step);
    case _ => LooseList(st, step);
  }

  /** The lost come from a list, and the step neither hands them out nor changes the current process. */
  lemma LostListed(st: Sys, step: Step)
    requires st.Sound() && Enabled(st, step) && Next(st, step).status == Running
    requires !(step.Scheduler? && step.control in {0, 1, 9})
    ensures Lost(st, step) !! Loose(st) && Lost(st, step) !! Given(st, step)
    ensures Current(Next(st, step)) == Current(st)
  {
    match step
    case TerminateProcess =>
      LooseTerminate(st);
      assert forall x :: x in Elems(st.ready) ==> x in st.ready;
    case OutBlocked(p) =>
      assert AheadOf(st.blocked, p) <= Members(st.blocked);
    case _ =>
  }

  /** The processes in the hands of callers after the first i steps. */
  ghost function HeldAt(states: seq<Sys>, trace: seq<Step>, i: nat): set<Pcb>
    requires |states| == |trace| + 1 && i <= |trace|
  {
    if i == 0 then {} else HeldAfter(states[i - 1], HeldAt(states, trace, i - 1), trace[i - 1])
  }

  ghost predicate CarefulAt(states: seq<Sys>, trace: seq<Step>, i: nat)
    requires |states| == |trace| + 1 && i < |trace|
  {
    StepAt(states, trace, i) && Careful(states[i], HeldAt(states, trace, i), trace[i])
  }

  /** The first i steps are careful. */
  ghost predicate CarefulRun(states: seq<Sys>, trace: seq<Step>, i: nat)
    requires |states| == |trace| + 1 && i <= |trace|
  {
    i == 0 || (CarefulRun(states, trace, i - 1) && CarefulAt(states, trace, i - 1))
  }

  lemma CarefulSteps(states: seq<Sys>, trace: seq<Step>, i: nat)
    requires |states| == |trace| + 1 && i <= |trace|
    requires forall j: nat {:trigger CarefulAt(states, trace, j)} :: j < i ==> CarefulAt(states, trace, j)
    ensures CarefulRun(states, trace, i)
  {
    var n := 0;
    while n < i
      invariant n <= i && CarefulRun(states, trace, n)
    {
      n := n + 1;
    }
  }

  /** In every run from an initial state whose steps are careful, every process is, as long as the machine runs, on a
      list, current, or in the hands of the caller it was given to. */
  lemma RunPlaced(states: seq<Sys>, trace: seq<Step>, i: nat)
    requires |states| == |trace| + 1 && Initial(states[0]) && i <= |trace| && states[i].status == Running
    requires forall j: nat {:trigger CarefulAt(states, trace, j)} :: j < i ==> CarefulAt(states, trace, j)
    ensures states[i].Sound() && Placed(states[i], HeldAt(states, trace, i))
  {
    CarefulSteps(states, trace, i);
    PlacedUpTo(states, trace, i);
  }

  lemma {:induction false} PlacedUpTo(states: seq<Sys>, trace: seq<Step>, i: nat)
    requires |states| == |trace| + 1 && Initial(states[0]) && i <= |trace| && states[i].status == Running
    requires CarefulRun(states, trace, i)
    ensures states[i].Sound() && Placed(states[i], HeldAt(states, trace, i))
  {
    if i == 0 {
      InitialPlaced(states, trace);
    } else {
      WasRunning(states, trace, i);
      PlacedUpTo(states, trace, i - 1);
      PlacedNext(states, trace, i);
    }
  }

  lemma WasRunning(states: seq<Sys>, trace: seq<Step>, i: nat)
    requires |states| == |trace| + 1 && 0 < i <= |trace| && CarefulRun(states, trace, i)
    ensures CarefulRun(states, trace, i - 1) && states[i - 1].status == Running
  {
  }

  lemma InitialPlaced(states: seq<Sys>, trace: seq<Step>)
    requires |states| == |trace| + 1 && Initial(states[0])
    ensures states[0].Sound() && Placed(states[0], HeldAt(states, trace, 0))
  {
    InitialSound(states[0]);
    assert forall x :: x in states[0].free <==> x in Elems(states[0].free);
  }

  lemma PlacedNext(states: seq<Sys>, trace: seq<Step>, i: nat)
    requires |states| == |trace| + 1 && 0 < i <= |trace| && CarefulRun(states, trace, i)
    requires states[i].status == Running
    requires states[i - 1].Sound() && Placed(states[i - 1], HeldAt(states, trace, i - 1))
    ensures states[i].Sound() && Placed(states[i], HeldAt(states, trace, i))
  {
    var n := i - 1;
    assert CarefulAt(states, trace, n);
    StepSound(states[n], trace[n]);
    PlacedExact(states[n], HeldAt(states, trace, n), trace[n]);
  }

  /** The first careless step of a run loses somebody, if the machine goes on running. */
  lemma CarelessLoses(states: seq<Sys>, trace: seq<Step>, i: nat)
    requires IsRun(states, trace) && Initial(states[0]) && i < |trace| && states[i + 1].status == Running
    requires forall j: nat {:trigger CarefulAt(states, trace, j)} :: j < i ==> CarefulAt(states, trace, j)
    requires !CarefulAt(states, trace, i)
    ensures !Placed(states[i + 1], HeldAt(states, trace, i + 1))
  {
    assert StepAt(states, trace, i);
    RunPlaced(states, trace, i);
    PlacedExact(states[i], HeldAt(states, trace, i), trace[i]);
  }

  // ---------- one place ----------

  datatype Place = Pool | ReadyQueue | Semaphore(s: nat) | CurrentProcess | Caller

  ghost predicate At(st: Sys, held: set<Pcb>, p: Pcb, place: Place) {
    match place
    case Pool => p in st.free
    case ReadyQueue => p in st.ready
    case Semaphore(s) => s in st.blocked && p in st.blocked[s]
    case CurrentProcess => st.Detached(p) && p == st.current
    case Caller => p in held && p != st.current
  }

  /** When nobody is lost, every process is in exactly one place, so next is never threaded through two lists. */
  lemma OnePlace(st: Sys, held: set<Pcb>, p: Pcb) returns (place: Place)
    requires st.Sound() && Placed(st, held) && p in st.Table()
    ensures At(st, held, p, place)
    ensures forall other: Place :: At(st, held, p, other) ==> other == place
  {
    assert p in Elems(st.free) <==> p in st.free;
    assert p in Elems(st.ready) <==> p in st.ready;
    assert p in held ==> p in Loose(st);
    if p in st.free {
      place := Pool;
    } else if p in st.ready {
      place := ReadyQueue;
    } else if p in Members(st.blocked) {
      var s :| s in st.blocked && p in st.blocked[s];
      assert QueueWf(st.blocked, s);
      place := Semaphore(s);
    } else {
      assert p in Loose(st);
      place := if p == st.current then CurrentProcess else Caller;
    }
  }
}
