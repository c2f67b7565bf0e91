/** The effect of every operation on the state, and the invariants that all of them keep. */
module Operations {
  import opened Lists
  import opened ProcQueue
  import opened Semaphores
  import opened Forests
  import opened Termination
  import opened SystemState

  datatype Step =
    | AllocPcb
    | FreePcb(p: Pcb)
    | InsertReady(p: Pcb)
    | InsertBlocked(s: nat, p: Pcb)
    | RemoveBlocked(s: nat)
    | OutBlocked(p: Pcb)
    | InsertChild(prnt: Pcb, p: Pcb)
    | OutChild(p: Pcb)
    | RemoveChild(p: Pcb)
    | CreateProcess
    | TerminateProcess
    | Scheduler(control: int)

  /** scheduler stops before dispatching (src/ProvaScheduler.c:17-22). */
  ghost function Stop(st: Sys): Status {
    if st.ready != [] then Running
    else if st.count == 0 then Halted
    else if st.count > 0 && st.soft == 0 then Panicked
    else if st.count > 0 && st.soft > 0 then Waiting
    else Running
  }

  /** The head of the ready queue becomes current. */
  ghost function TakeNext(st: Sys): Sys {
    if st.ready == [] then st.(current := null) else st.(current := st.ready[0], ready := st.ready[1..])
  }

  /** ... and its state is loaded. */
  ghost function Dispatch(st: Sys): Sys {
    if st.ready == [] then TakeNext(st).(status := Faulted) else TakeNext(st)
  }

  /** scheduler(0) and scheduler(1) write through the current process, which may be NULL. */
  ghost function Schedule(st: Sys, control: int): Sys {
    if Stop(st) != Running then st.(status := Stop(st))
    else if control in {0, 1} && st.current == null then st.(status := Faulted)
    else if control == 0 then Dispatch(st.(free := [st.current] + st.free, count := st.count - 1))
    else if control == 1 then Dispatch(st.(ready := st.ready + [st.current]))
    else if control == 9 then Dispatch(st)
    else if st.current == null then st.(status := Faulted)
    else st
  }

  /** createProcess reads through the current process first. */
  ghost function Create(st: Sys): Sys
    requires st.current != null ==> st.current in st.Table()
  {
    if st.current == null then st.(status := Faulted)
    else if st.free == [] then st
    else st.(
      free := st.free[1..],
      forest := st.forest.Insert(st.current, st.free[0]),
      ready := st.ready + [st.free[0]],
      count := st.count + 1)
  }

  /** A process that left the forest leaves the ready queue and returns to the pool. */
  ghost function Reclaim(st: Sys, v: Pcb): Sys {
    if st.ready == [] then st.(status := Faulted)
    else if v !in st.ready then st.(status := Panicked)
    else st.(ready := OutQ(st.ready, v), free := [v] + st.free, count := st.count - 1)
  }

  /** terminateSingleProcess; nothing happens after a stop. */
  ghost function Kill(st: Sys, v: Pcb): Sys {
    if st.status != Running then st else Reclaim(st.(forest := st.forest.Out(v)), v)
  }

  ghost function KillAll(st: Sys, vs: seq<Pcb>): Sys {
    if vs == [] then st else Kill(KillAll(st, vs[..|vs| - 1]), Last(vs))
  }

  /** So does terminateProcess. */
  ghost function Terminate(st: Sys): Sys
    requires st.current != null ==> st.forest.Wf() && st.current in st.Table()
  {
    if st.current == null then st.(status := Faulted) else KillAll(st, Victims(st.forest, st.current))
  }

  /** outBlocked, which goes through a NULL semdFree_h when the queue of p is emptied and all descriptors are in use. */
  ghost function TakeBlocked(st: Sys, p: Pcb): Sys {
    st.(blocked := Unblock(st.blocked, p),
        status := if p in Members(st.blocked) && |st.blocked| == |st.Table()| then Faulted else st.status)
  }

  /** What the source demands of the caller of each operation. */
  ghost predicate Enabled(st: Sys, step: Step) {
    st.status == Running &&
    match step
    case AllocPcb => st.free != [] ==> st.forest.Isolated(st.free[0])
    case FreePcb(p) => st.Detached(p)
    case InsertReady(p) => st.Detached(p)
    case InsertBlocked(s, p) => st.Detached(p)
    case RemoveBlocked(s) => true
    case OutBlocked(p) => p in st.Table()
    case InsertChild(prnt, p) =>
      && prnt in st.Table() && p in st.Table() && p !in st.forest.par
      && p != prnt && !st.forest.Above(p, prnt)
    case OutChild(p) => p in st.Table()
    case RemoveChild(p) => p in st.Table()
    case CreateProcess =>
      && (st.current != null ==> st.current in st.Table() && (st.free != [] ==> st.current != st.free[0]))
      && (st.free != [] ==> st.forest.Isolated(st.free[0]))
    case TerminateProcess => st.current != null ==> st.current in st.Table() && st.forest.Wf()
    case Scheduler(control) =>
      control in {0, 1} && Stop(st) == Running && st.current != null ==> st.Detached(st.current)
  }

  ghost function Next(st: Sys, step: Step): Sys
    requires Enabled(st, step)
  {
    match step
    case AllocPcb => if st.free == [] then st else st.(free := st.free[1..])
    case FreePcb(p) => st.(free := [p] + st.free)
    case InsertReady(p) => st.(ready := st.ready + [p])
    case InsertBlocked(s, p) => st.(blocked := Block(st.blocked, s, p))
    case RemoveBlocked(s) => st.(blocked := Wake(st.blocked, s))
    case OutBlocked(p) => TakeBlocked(st, p)
    case InsertChild(prnt, p) => st.(forest := st.forest.Insert(prnt, p))
    case OutChild(p) => st.(forest := st.forest.Out(p))
    case RemoveChild(p) => if st.forest.kids[p] == [] then st else st.(forest := st.forest.Out(st.forest.kids[p][0]))
    case CreateProcess => Create(st)
    case TerminateProcess => Terminate(st)
    case Scheduler(control) => Schedule(st, control)
  }

  /** What an operation hands back to its caller. */
  datatype Reply = Nothing | Process(p: Pcb?) | Code(v0: int) | Full(full: bool)

  ghost function ReplyTo(st: Sys, step: Step): Reply {
    match step
    case AllocPcb => Process(if st.free == [] then null else st.free[0])
    case InsertBlocked(_, _) => Full(false)
    case RemoveBlocked(s) => Process(if QueueOf(st.blocked, s) == [] then null else QueueOf(st.blocked, s)[0])
    case OutBlocked(p) =>
      if TakeBlocked(st, p).status != st.status then Nothing
      else Process(if p in Members(st.blocked) then p else null)
    case OutChild(p) => Process(if p in st.forest.par then p else null)
    case RemoveChild(p) =>
      Process(if p in st.forest.kids && st.forest.kids[p] != [] then st.forest.kids[p][0] else null)
    case CreateProcess => if st.current == null then Nothing else Code(if st.free == [] then -1 else 0)
    case _ => Nothing
  }

  // ---------- soundness of every step ----------

  /** createProcess keeps the invariant exactly when the current process is not the one it takes from the pool. */
  lemma CreateSound(st: Sys)
    requires st.Sound() && (st.free != [] ==> st.forest.Isolated(st.free[0]))
    ensures Create(st).Sound() <==> st.current == null || st.free == [] || st.current != st.free[0]
  {
    if st.current != null && st.free != [] {
      var p, t := st.free[0], Create(st);
      assert p in Elems(st.free) && st.free == [p] + t.free;
      assert p !in Elems(t.free) && Elems(t.free) <= Elems(st.free) && Elems(t.ready) == Elems(st.ready) + {p};
      NoDupConcat(st.ready, [p]);
      InsertMatched(st.forest, st.current, p);
      RootAbove(st.forest, p, st.current);
      InsertAcyclic(st.forest, st.current, p);
    }
  }

  /** A process without children is above nobody. */
  lemma RootAbove(f: Forest, p: Pcb, x: Pcb)
    requires f.Wf() && p in f.kids && f.kids[p] == [] && x in f.kids
    ensures !f.Above(p, x)
  {
    forall n: nat | n > 0 ensures Up(f.par, x, n) != p {
      NeverUp(f, p, x, n);
    }
  }

  lemma {:induction false} NeverUp(f: Forest, p: Pcb, x: Pcb, n: nat)
    requires f.Matched() && p in f.kids && f.kids[p] == [] && x in f.kids && n > 0
    ensures Up(f.par, x, n) != p
  {
    if x in f.par {
      assert f.Listed(x);
      if n > 1 {
        NeverUp(f, p, f.par[x], n - 1);
      }
    }
  }

  lemma DispatchSound(st: Sys)
    requires st.Sound()
    ensures Dispatch(st).Sound()
  {
    if st.ready != [] {
      assert st.ready == [st.ready[0]] + st.ready[1..];
      assert st.ready[0] in Elems(st.ready);
    }
  }

  /** scheduler(0) and scheduler(1) take the current process for one that is on no list. For a ready queue that does
      not start with it, this is exactly what keeps the invariant. (With the current process at its head, or with
      nothing ready and control 1, the dispatch takes the process off the queue again, but on the way its link has
      been overwritten while another list was using it.) */
  lemma ScheduleSoundExact(st: Sys, control: int)
    requires st.Sound() && Stop(st) == Running
    requires if st.ready == [] then control != 1 else st.current != st.ready[0]
    ensures Schedule(st, control).Sound() <==>
              control !in {0, 1} || st.current == null || st.Detached(st.current)
  {
    var t := Schedule(st, control);
    if control in {0, 1} && st.current != null {
      if st.Detached(st.current) {
        NoDupConcat([st.current], st.free);
        NoDupConcat(st.ready, [st.current]);
        DispatchSound(if control == 0 then st.(free := [st.current] + st.free, count := st.count - 1)
                      else st.(ready := st.ready + [st.current]));
      } else {
        Misplaced(st, t, control);
      }
    } else {
      DispatchSound(st);
    }
  }

  lemma Misplaced(st: Sys, t: Sys, control: int)
    requires st.Sound() && Stop(st) == Running && control in {0, 1} && t == Schedule(st, control)
    requires if st.ready == [] then control != 1 else st.current != st.ready[0]
    requires st.current != null && !st.Detached(st.current)
    ensures !t.Sound()
  {
    var p := st.current;
    assert st.ready != [] ==> st.ready == [st.ready[0]] + st.ready[1..];
    if control == 0 {
      assert t.free == [p] + st.free && t.free[0] == p && p in Elems(t.free);
      if p in st.free {
        var i :| 0 <= i < |st.free| && st.free[i] == p;
        assert t.free[i + 1] == p;
      } else if p in st.ready {
        assert p in st.ready[1..] && p in Elems(t.ready);
      }
    } else {
      assert t.ready == st.ready[1..] + [p] && t.ready[|t.ready| - 1] == p && p in Elems(t.ready);
      if p in st.free {
        assert p in Elems(t.free);
      } else if p in st.ready {
        var i :| 0 <= i < |st.ready| && st.ready[i] == p;
        assert t.ready[i - 1] == p;
      }
    }
  }

  lemma ScheduleSound(st: Sys, control: int)
    requires st.Sound() && Enabled(st, Scheduler(control))
    ensures Schedule(st, control).Sound()
  {
    if Stop(st) == Running && (control !in {0, 1} || st.current != null) {
      if control == 0 {
        NoDupConcat([st.current], st.free);
        DispatchSound(st.(free := [st.current] + st.free, count := st.count - 1));
      } else if control == 1 {
        NoDupConcat(st.ready, [st.current]);
        DispatchSound(st.(ready := st.ready + [st.current]));
      } else if control == 9 {
        DispatchSound(st);
      }
    }
  }

  lemma KillSound(st: Sys, v: Pcb)
    requires st.Sound()
    ensures Kill(st, v).Sound() && Kill(st, v).Table() == st.Table()
  {
    OutWf(st.forest, v);
    OutMatched(st.forest, v);
    if st.ready != [] && v in st.ready {
      assert v in Elems(st.ready);
      OutQEmpties(st.ready, v);
      DelMembers(st.ready, v);
      assert v !in Elems(OutQ(st.ready, v));
      assert v !in Elems(st.free);
      NoDupConcat([v], st.free);
    }
  }

  lemma {:induction false} KillAllSound(st: Sys, vs: seq<Pcb>)
    requires st.Sound()
    ensures KillAll(st, vs).Sound() && KillAll(st, vs).Table() == st.Table()
  {
    if vs != [] {
      KillAllSound(st, vs[..|vs| - 1]);
      KillSound(KillAll(st, vs[..|vs| - 1]), Last(vs));
    }
  }

  lemma ListStepSound(st: Sys, step: Step)
    requires st.Sound() && Enabled(st, step)
    requires step.AllocPcb? || step.FreePcb? || step.InsertReady?
    ensures Next(st, step).Sound()
  {
    match step
    case AllocPcb =>
      if st.free != [] {
        assert st.free == [st.free[0]] + st.free[1..];
      }
    case FreePcb(p) => NoDupConcat([p], st.free);
    case InsertReady(p) => NoDupConcat(st.ready, [p]);
  }

  lemma SemaphoreStepSound(st: Sys, step: Step)
    requires st.Sound() && Enabled(st, step)
    requires step.InsertBlocked? || step.RemoveBlocked? || step.OutBlocked?
    ensures Next(st, step).Sound()
  {
    match step
    case InsertBlocked(s, p) => BlockWf(st.blocked, s, p);
    case RemoveBlocked(s) => WakeWf(st.blocked, s);
    case OutBlocked(p) => UnblockSub(st.blocked, p);
  }

  lemma ForestStepSound(st: Sys, step: Step)
    requires st.Sound() && Enabled(st, step)
    requires step.InsertChild? || step.OutChild? || step.RemoveChild?
    ensures Next(st, step).Sound() && Next(st, step).Table() == st.Table()
  {
    match step
    case InsertChild(prnt, p) =>
      InsertMatched(st.forest, prnt, p);
      InsertAcyclic(st.forest, prnt, p);
    case OutChild(p) =>
      OutMatched(st.forest, p);
      OutWf(st.forest, p);
    case RemoveChild(p) =>
      if st.forest.kids[p] != [] {
        OutMatched(st.forest, st.forest.kids[p][0]);
        OutWf(st.forest, st.forest.kids[p][0]);
      }
  }

  /** Every operation keeps the invariant. */
  lemma StepSound(st: Sys, step: Step)
    requires st.Sound() && Enabled(st, step)
    ensures Next(st, step).Sound() && Next(st, step).Table() == st.Table()
  {
    match step
    case CreateProcess => CreateSound(st);
    case TerminateProcess =>
      if st.current != null {
        KillAllSound(st, Victims(st.forest, st.current));
      }
    case Scheduler(control) => ScheduleSound(st, control);
    case InsertChild(prnt, p) => ForestStepSound(st, step);
    case OutChild(p) => ForestStepSound(st, step);
    case RemoveChild(p) => ForestStepSound(st, step);
    case InsertBlocked(s, p) => SemaphoreStepSound(st, step);
    case RemoveBlocked(s) => SemaphoreStepSound(st, step);
    case OutBlocked(p) => SemaphoreStepSound(st, step);
    case _ => ListStepSound(st, step);
  }

  lemma UnblockSub(b: Queues, p: Pcb)
    requires QueuesWf(b)
    ensures QueuesWf(Unblock(b, p)) && Members(Unblock(b, p)) <= Members(b)
  {
    if p in Members(b) {
      var s :| s in b && p in b[s];
      UnblockMember(b, s, p);
    } else {
      UnblockStranger(b, p);
    }
  }
}
