/** What single operations guarantee in every sound state, with the exact conditions under which they do. */
module Guarantees {
  import opened Lists
  import opened ProcQueue
  import opened Semaphores
  import opened Forests
  import opened Termination
  import opened SystemState
  import opened Operations
  import opened Killing

  // ---------- semaphore descriptors never run out ----------

  /** insertBlocked succeeds on every process that is not blocked already: by the pigeonhole, a descriptor is free. */
  lemma NeverFull(st: Sys, p: Pcb)
    requires st.Sound() && p in st.Table() && p !in Members(st.blocked)
    ensures |st.blocked| < |st.Table()|
  {
    Pigeonhole(st.blocked);
    SubsetCard(Members(st.blocked), st.Table());
  }

  /** All descriptors are in use exactly when every process is blocked, each alone on its semaphore. */
  lemma Exhausted(st: Sys)
    requires st.Sound()
    ensures |st.blocked| == |st.Table()| <==>
              Members(st.blocked) == st.Table() && forall s :: s in st.blocked ==> |st.blocked[s]| == 1
  {
    Pigeonhole(st.blocked);
    SubsetCard(Members(st.blocked), st.Table());
    if forall s :: s in st.blocked ==> |st.blocked[s]| == 1 {
      AllAlone(st.blocked);
    }
  }

  lemma {:induction false} AllAlone(b: Queues)
    requires QueuesWf(b) && forall s :: s in b ==> |b[s]| == 1
    ensures |b| == |Members(b)|
    decreases |b|
  {
    if b != map[] {
      var s :| s in b;
      RemoveKey(b, s);
      AllAlone(b - {s});
      assert QueueWf(b, s);
      NoDupCard(b[s]);
    }
  }

  /** outBlocked goes through a NULL semdFree_h in exactly that state, whichever process it is called for. */
  lemma OutBlockedSafe(st: Sys, p: Pcb)
    requires st.Sound() && st.status == Running && p in st.Table()
    ensures Next(st, OutBlocked(p)).status == Faulted <==>
              Members(st.blocked) == st.Table() && forall s :: s in st.blocked ==> |st.blocked[s]| == 1
  {
    Exhausted(st);
  }

  // ---------- outBlocked ----------

  /** The processes outBlocked takes off their queue without handing them to anybody. */
  ghost function Dropped(b: Queues, p: Pcb): set<Pcb> {
    Members(b) - Members(Unblock(b, p)) - {p}
  }

  /** outBlocked drops nobody exactly when p is not the tail of a longer queue. */
  lemma DropsNobody(st: Sys, s: nat, p: Pcb)
    requires st.Sound() && s in st.blocked && p in st.blocked[s]
    ensures Dropped(st.blocked, p) == {} <==> p != Last(st.blocked[s]) || |st.blocked[s]| == 1
    ensures p == Last(st.blocked[s]) ==> Dropped(st.blocked, p) == Elems(st.blocked[s]) - {p}
  {
    UnblockMember(st.blocked, s, p);
    UnblockExact(st.blocked, s, p);
    assert Elems(st.blocked[s]) <= Members(st.blocked) by { Queued(st.blocked, s); }
    assert p in Elems(st.blocked[s]);
  }

  // ---------- the pool stays clean ----------

  /** What a caller has to respect for the step to keep pooled processes out of the forest. */
  ghost predicate KeepsClean(st: Sys, step: Step)
    requires Enabled(st, step)
  {
    match step
    case FreePcb(p) => st.forest.Isolated(p)
    case InsertChild(prnt, p) => prnt !in st.free && p !in st.free
    case CreateProcess => st.current != null && st.free != [] ==> st.current !in st.free
    case TerminateProcess => st.current != null ==> LaterSiblingsChildless(st.forest, st.current)
    case Scheduler(control) =>
      control == 0 && Stop(st) == Running && st.current != null ==> st.forest.Isolated(st.current)
    case _ => true
  }

  /** The guard is exact, for every operation that does not stop the machine. */
  lemma CleanExact(st: Sys, step: Step)
    requires st.Sound() && st.Clean() && Enabled(st, step)
    requires Next(st, step).status == Running
    ensures Next(st, step).Clean() <==> KeepsClean(st, step)
  {
    match step
    case InsertChild(prnt, p) => InsertChildClean(st, prnt, p);
    case OutChild(p) => OutStaysIsolated(st.forest, p);
    case RemoveChild(p) =>
      if st.forest.kids[p] != [] {
        OutStaysIsolated(st.forest, st.forest.kids[p][0]);
      }
    case CreateProcess => CreateClean(st);
    case TerminateProcess => TerminateClean(st);
    case Scheduler(control) => ScheduleClean(st, control);
    case FreePcb(p) =>
      assert Next(st, step).free[0] == p;
    case _ =>
  }

  lemma InsertChildClean(st: Sys, prnt: Pcb, p: Pcb)
    requires st.Clean() && prnt in st.Table()
    ensures st.(forest := st.forest.Insert(prnt, p)).Clean() <==> prnt !in st.free && p !in st.free
  {
    var f := st.forest.Insert(prnt, p);
    assert !f.Isolated(prnt) && !f.Isolated(p);
    assert forall x :: x in st.free ==> st.forest.Isolated(x);
  }

  lemma CreateClean(st: Sys)
    requires st.Sound() && st.Clean() && Enabled(st, CreateProcess) && st.current != null
    ensures Create(st).Clean() <==> KeepsClean(st, CreateProcess)
  {
    if st.free != [] {
      var t := Create(st);
      assert st.free == [st.free[0]] + t.free;
      assert !t.forest.Isolated(st.current);
      forall x | x in t.free && x != st.current ensures t.forest.Isolated(x) {
        assert x in st.free && x != st.free[0] && st.forest.Isolated(x);
      }
    }
  }

  lemma ScheduleClean(st: Sys, control: int)
    requires st.Clean() && Enabled(st, Scheduler(control)) && Schedule(st, control).status == Running
    ensures Schedule(st, control).Clean() <==> KeepsClean(st, Scheduler(control))
  {
    if control == 0 {
      var t := Schedule(st, control);
      assert t.free == [st.current] + st.free && t.free[0] == st.current;
    }
  }

  lemma OutStaysIsolated(f: Forest, p: Pcb)
    requires f.Matched()
    ensures forall x :: f.Isolated(x) ==> f.Out(p).Isolated(x)
  {
    OutMatched(f, p);
    if p in f.par {
      assert f.Listed(p);
    }
  }
}
