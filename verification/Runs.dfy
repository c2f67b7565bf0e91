/** Properties of whole runs: invariants, conservation, first-come-first-served queues, bounded waiting. */
module Runs {
  import opened Lists
  import opened ProcQueue
  import opened Semaphores
  import opened SystemState
  import opened Operations
  import opened Guarantees
  import opened Killing
  import Termination

  ghost predicate StepAt(states: seq<Sys>, trace: seq<Step>, i: nat)
    requires |states| == |trace| + 1 && i < |trace|
  {
    Enabled(states[i], trace[i]) && states[i + 1] == Next(states[i], trace[i])
  }

  /** states[0], states[1], ... are passed through by performing trace[0], trace[1], ... */
  ghost predicate IsRun(states: seq<Sys>, trace: seq<Step>) {
    && |states| == |trace| + 1
    && forall i: nat {:trigger StepAt(states, trace, i)} :: i < |trace| ==> StepAt(states, trace, i)
  }

  /** What the steps hand back to their callers. */
  ghost function Replies(states: seq<Sys>, trace: seq<Step>): (replies: seq<Reply>)
    requires |states| == |trace| + 1
    ensures |replies| == |trace|
    ensures forall i :: 0 <= i < |trace| ==> replies[i] == ReplyTo(states[i], trace[i])
  {
    seq(|trace|, i requires 0 <= i < |trace| => ReplyTo(states[i], trace[i]))
  }

  /** A run and one more step. */
  lemma Continue(states: seq<Sys>, trace: seq<Step>, step: Step) returns (more: seq<Sys>, longer: seq<Step>)
    requires IsRun(states, trace) && Enabled(Last(states), step)
    ensures longer == trace + [step] && more == states + [Next(Last(states), step)] && IsRun(more, longer)
  {
    longer := trace + [step];
    more := states + [Next(Last(states), step)];
    forall i: nat | i < |longer| ensures StepAt(more, longer, i) {
      if i < |trace| {
        assert StepAt(states, trace, i);
      }
    }
  }

  /** The state after initPcbs and initASL: everything is in the pool and nothing is linked. */
  ghost predicate Initial(st: Sys) {
    && NoDup(st.free) && Elems(st.free) == st.Table()
    && st.ready == [] && st.blocked == map[] && st.current == null
    && st.forest.par == map[] && (forall p :: p in st.Table() ==> st.forest.kids[p] == [])
  }

  lemma InitialSound(st: Sys)
    requires Initial(st)
    ensures st.Sound() && st.Clean()
  {
    forall x | x in st.forest.kids ensures st.forest.Owns(x) {
    }
    assert forall p :: p in st.free ==> p in Elems(st.free);
  }

  /** Every state of every run is sound: each process is in one place, the forest is well formed. */
  lemma {:induction false} RunSound(states: seq<Sys>, trace: seq<Step>, i: nat)
    requires IsRun(states, trace) && states[0].Sound() && i < |states|
    ensures states[i].Sound() && states[i].Table() == states[0].Table()
  {
    if i > 0 {
      RunSound(states, trace, i - 1);
      assert StepAt(states, trace, i - 1);
      StepSound(states[i - 1], trace[i - 1]);
    }
  }

  lemma RunLists(states: seq<Sys>, trace: seq<Step>, i: nat)
    requires IsRun(states, trace) && states[0].Sound() && i < |trace|
    ensures NoDup(states[i].ready) && QueuesWf(states[i].blocked) && Enabled(states[i], trace[i])
    ensures states[i + 1] == Next(states[i], trace[i])
  {
    RunSound(states, trace, i);
    assert StepAt(states, trace, i);
  }

  // ---------- the pool and the forest ----------

  ghost predicate CleanStep(states: seq<Sys>, trace: seq<Step>, i: nat)
    requires |states| == |trace| + 1 && i < |trace|
  {
    StepAt(states, trace, i) && KeepsClean(states[i], trace[i])
  }

  /** While every step respects its guard, no pooled process is left in the forest, so the process that allocPcb
      hands out next is always free of family ties. */
  lemma {:induction false} RunClean(states: seq<Sys>, trace: seq<Step>, i: nat)
    requires IsRun(states, trace) && states[0].Sound() && states[0].Clean() && i < |states|
    requires forall j: nat {:trigger CleanStep(states, trace, j)} :: j < |trace| ==> CleanStep(states, trace, j)
    requires states[i].status == Running
    ensures states[i].Clean()
    ensures states[i].free != [] ==> states[i].forest.Isolated(states[i].free[0])
  {
    if i > 0 {
      assert CleanStep(states, trace, i - 1);
      RunSound(states, trace, i - 1);
      RunClean(states, trace, i - 1);
      CleanExact(states[i - 1], trace[i - 1]);
    }
    assert states[i].free != [] ==> states[i].free[0] in states[i].free;
  }

  // ---------- processCount and the pool ----------

  lemma {:induction false} KillAllCount(st: Sys, vs: seq<Pcb>)
    ensures KillAll(st, vs).count + |KillAll(st, vs).free| == st.count + |st.free|
  {
    if vs != [] {
      KillAllCount(st, vs[..|vs| - 1]);
    }
  }

  lemma StepCount(st: Sys, step: Step)
    requires Enabled(st, step) && !step.AllocPcb? && !step.FreePcb?
    ensures Next(st, step).count + |Next(st, step).free| == st.count + |st.free|
  {
    if step.TerminateProcess? && st.current != null {
      KillAllCount(st, Termination.Victims(st.forest, st.current));
    }
  }

  /** processCount plus the size of the pool never changes while only the system calls and the scheduler
      allocate and free processes. */
  lemma {:induction false} CountConserved(states: seq<Sys>, trace: seq<Step>, i: nat)
    requires IsRun(states, trace) && i < |states|
    requires forall j :: 0 <= j < |trace| ==> !trace[j].AllocPcb? && !trace[j].FreePcb?
    ensures states[i].count + |states[i].free| == states[0].count + |states[0].free|
  {
    if i > 0 {
      CountConserved(states, trace, i - 1);
      assert StepAt(states, trace, i - 1);
      StepCount(states[i - 1], trace[i - 1]);
    }
  }

  // ---------- semaphore queues are first come, first served ----------

  /** The process that a step puts on the queue of s, if any. */
  ghost function Arriving(st: Sys, step: Step, s: nat): seq<Pcb> {
    match step
    case InsertBlocked(t, p) => if t == s then [p] else []
    case _ => []
  }

  /** The process that removeBlocked on s hands to its caller, if any. */
  ghost function Leaving(st: Sys, step: Step, s: nat): seq<Pcb> {
    if step != RemoveBlocked(s) then []
    else match ReplyTo(st, step)
      case Process(p) => if p == null then [] else [p]
      case _ => []
  }

  /** The processes that insertBlocked puts on the queue of s during the first i steps, in order. */
  ghost function Arrivals(states: seq<Sys>, trace: seq<Step>, s: nat, i: nat): seq<Pcb>
    requires |states| == |trace| + 1 && i <= |trace|
  {
    if i == 0 then [] else Arrivals(states, trace, s, i - 1) + Arriving(states[i - 1], trace[i - 1], s)
  }

  /** The processes that removeBlocked returns from the queue of s during the first i steps, in order. */
  ghost function Wakeups(states: seq<Sys>, trace: seq<Step>, s: nat, i: nat): seq<Pcb>
    requires |states| == |trace| + 1 && i <= |trace|
  {
    if i == 0 then [] else Wakeups(states, trace, s, i - 1) + Leaving(states[i - 1], trace[i - 1], s)
  }

  /** outBlocked takes nobody off the queue of s. */
  ghost predicate Undisturbed(states: seq<Sys>, trace: seq<Step>, s: nat)
    requires |states| == |trace| + 1
  {
    forall j :: 0 <= j < |trace| && trace[j].OutBlocked? ==> trace[j].p !in QueueOf(states[j].blocked, s)
  }

  /** Whatever happens on other semaphores, and to all other lists, the processes blocked on s are woken in the
      order in which they were blocked, unless outBlocked takes one of them out. */
  lemma {:induction false} FirstComeFirstServed(states: seq<Sys>, trace: seq<Step>, s: nat, i: nat)
    requires IsRun(states, trace) && states[0].Sound() && i <= |trace|
    requires Undisturbed(states, trace, s)
    ensures QueueOf(states[0].blocked, s) + Arrivals(states, trace, s, i)
         == Wakeups(states, trace, s, i) + QueueOf(states[i].blocked, s)
  {
    if i == 0 {
      assert [] + QueueOf(states[0].blocked, s) == QueueOf(states[0].blocked, s) + [];
    } else {
      FirstComeFirstServed(states, trace, s, i - 1);
      FlowStep(states, trace, s, i - 1);
    }
  }

  lemma FlowStep(states: seq<Sys>, trace: seq<Step>, s: nat, i: nat)
    requires IsRun(states, trace) && states[0].Sound() && i < |trace| && Undisturbed(states, trace, s)
    requires QueueOf(states[0].blocked, s) + Arrivals(states, trace, s, i)
          == Wakeups(states, trace, s, i) + QueueOf(states[i].blocked, s)
    ensures QueueOf(states[0].blocked, s) + Arrivals(states, trace, s, i + 1)
         == Wakeups(states, trace, s, i + 1) + QueueOf(states[i + 1].blocked, s)
  {
    RunQueueStep(states, trace, s, i);
    Regroup(QueueOf(states[0].blocked, s), Arrivals(states, trace, s, i), Arriving(states[i], trace[i], s),
            Wakeups(states, trace, s, i), QueueOf(states[i].blocked, s), Leaving(states[i], trace[i], s),
            QueueOf(states[i + 1].blocked, s));
  }

  lemma RunQueueStep(states: seq<Sys>, trace: seq<Step>, s: nat, i: nat)
    requires IsRun(states, trace) && states[0].Sound() && i < |trace| && Undisturbed(states, trace, s)
    ensures QueueOf(states[i].blocked, s) + Arriving(states[i], trace[i], s)
         == Leaving(states[i], trace[i], s) + QueueOf(states[i + 1].blocked, s)
  {
    RunLists(states, trace, i);
    QueueStep(states[i], trace[i], s);
  }

  lemma Regroup(q0: seq<Pcb>, a: seq<Pcb>, arrived: seq<Pcb>, w: seq<Pcb>, q: seq<Pcb>, woken: seq<Pcb>, q': seq<Pcb>)
    requires q0 + a == w + q && q + arrived == woken + q'
    ensures q0 + (a + arrived) == (w + woken) + q'
  {
    assert q0 + (a + arrived) == (q0 + a) + arrived;
    assert (w + q) + arrived == w + (q + arrived);
    assert w + (woken + q') == (w + woken) + q';
  }

  /** One step on the queue of s: an arrival joins at the end, a wake-up leaves from the front. */
  lemma QueueStep(st: Sys, step: Step, s: nat)
    requires QueuesWf(st.blocked) && Enabled(st, step)
    requires step.OutBlocked? ==> step.p !in QueueOf(st.blocked, s)
    ensures QueueOf(st.blocked, s) + Arriving(st, step, s)
         == Leaving(st, step, s) + QueueOf(Next(st, step).blocked, s)
  {
    match step
    case RemoveBlocked(t) =>
      if t in st.blocked {
        assert QueueWf(st.blocked, t);
      }
    case OutBlocked(p) =>
      if s in st.blocked {
        assert QueueWf(st.blocked, s);
      }
    case TerminateProcess =>
      if st.current != null {
        KillAllBlocked(st, Termination.Victims(st.forest, st.current));
      }
    case _ =>
  }

  // ---------- bounded waiting ----------

  ghost predicate IsDispatch(step: Step) {
    step.Scheduler? && step.control in {0, 1, 9}
  }

  ghost function Dispatches(trace: seq<Step>): nat {
    if trace == [] then 0
    else Dispatches(trace[..|trace| - 1]) + if IsDispatch(Last(trace)) then 1 else 0
  }

  /** Unless it stops the machine, a dispatch moves every waiting process one place forward, or makes the first one
      current; no other step but terminateProcess moves it at all. */
  lemma WaitingStep(st: Sys, step: Step, k: nat)
    requires NoDup(st.ready) && Enabled(st, step) && !step.TerminateProcess? && k < |st.ready|
    requires Next(st, step).status == Running
    ensures var t := Next(st, step);
            if !IsDispatch(step) then k < |t.ready| && t.ready[k] == st.ready[k]
            else if k == 0 then t.current == st.ready[0]
            else k - 1 < |t.ready| && t.ready[k - 1] == st.ready[k] && t.current != st.ready[k]
  {
  }

  lemma RunWaitingStep(states: seq<Sys>, trace: seq<Step>, i: nat, k: nat)
    requires IsRun(states, trace) && states[0].Sound() && i < |trace| && !trace[i].TerminateProcess?
    requires k < |states[i].ready| && states[i + 1].status == Running
    ensures var st, t := states[i], states[i + 1];
            if !IsDispatch(trace[i]) then k < |t.ready| && t.ready[k] == st.ready[k]
            else if k == 0 then t.current == st.ready[0]
            else k - 1 < |t.ready| && t.ready[k - 1] == st.ready[k] && t.current != st.ready[k]
  {
    RunLists(states, trace, i);
    WaitingStep(states[i], trace[i], k);
  }

  /** A process at index k of the ready queue becomes current at exactly the (k+1)-th dispatch, as long as the
      machine runs, in any run in which terminateProcess does not occur. */
  lemma {:induction false} BoundedWaiting(states: seq<Sys>, trace: seq<Step>, p: Pcb, k: nat, i: nat)
    requires IsRun(states, trace) && states[0].Sound() && i <= |trace|
    requires forall j :: 0 <= j < |trace| ==> !trace[j].TerminateProcess?
    requires k < |states[0].ready| && states[0].ready[k] == p && states[i].status == Running
    ensures var d := Dispatches(trace[..i]);
            && (d <= k ==> k - d < |states[i].ready| && states[i].ready[k - d] == p)
            && (i > 0 && IsDispatch(trace[i - 1]) && d <= k + 1 ==> (states[i].current == p <==> d == k + 1))
  {
    if i > 0 {
      assert StepAt(states, trace, i - 1);
      BoundedWaiting(states, trace, p, k, i - 1);
      assert trace[..i][..i - 1] == trace[..i - 1] && Last(trace[..i]) == trace[i - 1];
      var d := Dispatches(trace[..i - 1]);
      if d <= k {
        RunWaitingStep(states, trace, i - 1, k - d);
      }
    }
  }

  /** At step j the waiting of p is over: it is dispatched, by the (k+1)-th dispatch at the latest, or a
      terminateProcess kills it or throws the whole ready queue away. */
  ghost predicate WaitingOver(states: seq<Sys>, trace: seq<Step>, p: Pcb, k: nat, j: nat)
    requires |states| == |trace| + 1 && 0 < j <= |trace|
  {
    || (IsDispatch(trace[j - 1]) && states[j].current == p && Dispatches(trace[..j]) <= k + 1)
    || (trace[j - 1].TerminateProcess? && p in states[j - 1].ready && p !in states[j].ready
        && (p in states[j].free || states[j].ready == []))
  }

  ghost predicate StillWaiting(st: Sys, p: Pcb, limit: int) {
    exists m: nat :: m < |st.ready| && m <= limit && st.ready[m] == p
  }

  /** The bound for all runs: terminateProcess may end the waiting of a process, but never makes it wait longer. */
  lemma {:induction false} WaitingEnds(states: seq<Sys>, trace: seq<Step>, p: Pcb, k: nat, i: nat)
    requires IsRun(states, trace) && states[0].Sound() && i <= |trace|
    requires k < |states[0].ready| && states[0].ready[k] == p && states[i].status == Running
    ensures || (exists j: nat {:trigger WaitingOver(states, trace, p, k, j)} ::
                  0 < j <= i && WaitingOver(states, trace, p, k, j))
            || StillWaiting(states[i], p, k - Dispatches(trace[..i]))
  {
    if i > 0 {
      assert StepAt(states, trace, i - 1);
      RunSound(states, trace, i - 1);
      WaitingEnds(states, trace, p, k, i - 1);
      if StillWaiting(states[i - 1], p, k - Dispatches(trace[..i - 1])) {
        WaitingOn(states, trace, p, k, i - 1);
      }
    }
  }

  lemma WaitingOn(states: seq<Sys>, trace: seq<Step>, p: Pcb, k: nat, i: nat)
    requires IsRun(states, trace) && states[0].Sound() && i < |trace| && states[i + 1].status == Running
    requires StillWaiting(states[i], p, k - Dispatches(trace[..i]))
    ensures WaitingOver(states, trace, p, k, i + 1)
         || StillWaiting(states[i + 1], p, k - Dispatches(trace[..i + 1]))
  {
    var st, t, d := states[i], states[i + 1], Dispatches(trace[..i]);
    assert trace[..i + 1][..i] == trace[..i] && Last(trace[..i + 1]) == trace[i];
    var m: nat :| m < |st.ready| && m <= k - d && st.ready[m] == p;
    RunSound(states, trace, i);
    RunLists(states, trace, i);
    if trace[i].TerminateProcess? {
      var n := TerminateWaiting(st, m);
      if p in t.ready {
        assert t.ready[n] == p;
      }
    } else {
      RunWaitingStep(states, trace, i, m);
      if IsDispatch(trace[i]) && m > 0 {
        assert t.ready[m - 1] == p;
      }
    }
  }
}
