/** Short runs from the initial state at which what single operations promise fails, or is seen to happen. */
module Scenarios {
  import opened Lists
  import opened ProcQueue
  import opened Semaphores
  import opened Forests
  import opened Termination
  import opened SystemState
  import opened Operations
  import opened Killing
  import opened Runs
  import opened Placement

  /** The state that main sets up before it creates the first process. */
  ghost predicate Fresh(st: Sys) {
    Initial(st) && st.status == Running && st.count == 0
  }

  /** The first process, which main takes from the pool and puts on the ready queue without counting it: scheduler(1),
      as main calls it, queues a NULL current process; scheduler(9) dispatches the first process, provided that the
      STST which precedes it (src/ProvaScheduler.c:28) survives storing through NULL, and then the end of the first
      time slice halts the machine, because nobody is ready and the count is still zero. */
  lemma FirstProcess(st: Sys)
    requires Fresh(st) && st.free != []
    ensures Enabled(st, AllocPcb) && Enabled(Next(st, AllocPcb), InsertReady(st.free[0]))
    ensures var main := Next(Next(st, AllocPcb), InsertReady(st.free[0]));
            && Enabled(main, Scheduler(1)) && Next(main, Scheduler(1)) == main.(status := Faulted)
            && Enabled(main, Scheduler(9)) && Next(main, Scheduler(9)) == main.(current := st.free[0], ready := [])
            && Enabled(Next(main, Scheduler(9)), Scheduler(1))
            && Next(Next(main, Scheduler(9)), Scheduler(1)).status == Halted
  {
    assert st.free[0] in Elems(st.free) && st.free == [st.free[0]] + st.free[1..];
  }

  // ---------- outBlocked ----------

  /** With a single process control block, blocking the process and taking it out again goes through a NULL
      semdFree_h. */
  lemma LoneProcessFaults(st: Sys, p: Pcb, s: nat) returns (states: seq<Sys>)
    requires Fresh(st) && st.free == [p]
    ensures IsRun(states, [AllocPcb, InsertBlocked(s, p), OutBlocked(p)]) && states[0] == st
    ensures states[3].status == Faulted
  {
    var trace;
    states, trace := LoneRun(st, p, s);
    states, trace := Continue(states, trace, OutBlocked(p));
    assert trace == [AllocPcb, InsertBlocked(s, p), OutBlocked(p)];
  }

  lemma LoneRun(st: Sys, p: Pcb, s: nat) returns (states: seq<Sys>, trace: seq<Step>)
    requires Fresh(st) && st.free == [p]
    ensures trace == [AllocPcb, InsertBlocked(s, p)] && IsRun(states, trace) && states[0] == st
    ensures Last(states).blocked == map[s := [p]] && p in Members(Last(states).blocked)
    ensures Last(states).Table() == {p} && Last(states).status == Running
  {
    assert p in Elems(st.free);
    states, trace := Continue([st], [], AllocPcb);
    assert QueueOf(Last(states).blocked, s) + [p] == [p];
    states, trace := Continue(states, trace, InsertBlocked(s, p));
    assert p in Last(states).blocked[s];
  }

  // ---------- terminateProcess ----------

  /** Killing p with the children a and b, b having a child of its own, leaves that grandchild alive. */
  lemma GrandchildSurvives(f: Forest, p: Pcb, a: Pcb, b: Pcb, c: Pcb)
    requires f.Wf() && p in f.kids && f.kids[p] == [a, b]
    requires a in f.kids && f.kids[a] == [] && b in f.kids && f.kids[b] == [c]
    ensures Victims(f, p) == [a, b, p] && c in f.Subtree(p) && c !in Victims(f, p)
  {
    AboveChild(f, p, a);
    AboveChild(f, p, b);
    AboveChild(f, b, c);
    AboveTrans(f, p, b, c);
    NotOwnAncestor(f, p);
    NotOwnAncestor(f, b);
    BelowSibling(f, p, a, b);
    assert f.Owns(p);
    assert KillList(f, a) == [] && KillList(f, p) == [a, b];
    assert c != a by {
      assert f.par[a] == p && f.par[c] == b && p != b;
    }
  }

  // ---------- a family of two ----------

  /** The first process a has been dispatched and has created b. */
  ghost function Family(st: Sys, a: Pcb, b: Pcb): Sys
    requires a in st.Table() && |st.free| >= 2
  {
    st.(free := st.free[2..], ready := [b], forest := st.forest.Insert(a, b), current := a, count := 1)
  }

  lemma FirstSound(st: Sys, a: Pcb)
    requires Fresh(st) && st.free != [] && a == st.free[0]
    ensures st.(free := st.free[1..], current := a).Sound() && st.(free := st.free[1..], current := a).Detached(a)
  {
    InitialSound(st);
    assert a in Elems(st.free) && st.free == [a] + st.free[1..];
  }

  lemma FirstRun(st: Sys, a: Pcb) returns (states: seq<Sys>, trace: seq<Step>)
    requires Fresh(st) && st.free != [] && a == st.free[0]
    ensures trace == [AllocPcb, InsertReady(a), Scheduler(9)] && IsRun(states, trace) && states[0] == st
    ensures a in st.Table() && Last(states) == st.(free := st.free[1..], current := a) && Last(states).Sound()
    ensures Last(states).Detached(a)
  {
    assert a in Elems(st.free) && st.free == [a] + st.free[1..];
    states, trace := Continue([st], [], AllocPcb);
    states, trace := Continue(states, trace, InsertReady(a));
    assert Last(states) == st.(free := st.free[1..], ready := [a]);
    states, trace := Continue(states, trace, Scheduler(9));
    FirstSound(st, a);
  }

  lemma FamilyRun(st: Sys, a: Pcb, b: Pcb) returns (states: seq<Sys>, trace: seq<Step>)
    requires Fresh(st) && |st.free| >= 2 && a == st.free[0] && b == st.free[1]
    ensures trace == [AllocPcb, InsertReady(a), Scheduler(9), CreateProcess]
    ensures IsRun(states, trace) && states[0] == st
    ensures a in st.Table() && b in st.Table() && a != b && Last(states) == Family(st, a, b)
    ensures Last(states).Sound() && Last(states).Detached(a)
    ensures Last(states).forest.kids[a] == [b] && Last(states).forest.kids[b] == []
  {
    states, trace := FirstRun(st, a);
    var t := Last(states);
    assert t.free[0] == b && b in Elems(st.free) && t.free[1..] == st.free[2..];
    states, trace := Continue(states, trace, CreateProcess);
    StepSound(t, CreateProcess);
    assert [b] + [] == [b] == [] + [b];
    assert Last(states).free == st.free[2..] && a !in st.free[2..];
  }

  /** scheduler(0) on a process with a child leaves a pooled process in the forest. */
  lemma EndLeavesFamily(st: Sys, a: Pcb, b: Pcb) returns (states: seq<Sys>)
    requires Fresh(st) && |st.free| >= 2 && a == st.free[0] && b == st.free[1]
    ensures IsRun(states, [AllocPcb, InsertReady(a), Scheduler(9), CreateProcess, Scheduler(0)]) && states[0] == st
    ensures states[5].status == Running && states[5].current == b && a in states[5].free
    ensures a in states[5].Table() && states[5].forest.kids[a] == [b] && !states[5].Clean()
  {
    var trace;
    states, trace := FamilyRun(st, a, b);
    states, trace := Continue(states, trace, Scheduler(0));
    assert trace == [AllocPcb, InsertReady(a), Scheduler(9), CreateProcess, Scheduler(0)];
    assert states[5].free[0] == a && !states[5].forest.Isolated(a);
  }

  /** scheduler(9) on a running process forgets it: it is on no list and nobody has it. */
  lemma SwitchForgets(st: Sys, a: Pcb, b: Pcb) returns (states: seq<Sys>)
    requires Fresh(st) && |st.free| >= 2 && a == st.free[0] && b == st.free[1]
    ensures IsRun(states, [AllocPcb, InsertReady(a), Scheduler(9), CreateProcess, Scheduler(9)]) && states[0] == st
    ensures states[5].status == Running && states[5].current == b && states[5].Detached(a) && a != b
    ensures forall held :: Placed(states[5], held) ==> a in held
  {
    var trace;
    states, trace := FamilyRun(st, a, b);
    states, trace := Continue(states, trace, Scheduler(9));
    assert trace == [AllocPcb, InsertReady(a), Scheduler(9), CreateProcess, Scheduler(9)];
    assert states[5].Detached(a) && a in Loose(states[5]);
  }

  /** A process is alive, nobody is ready, and nobody waits for a device: PANIC, with all lists as they were. */
  lemma DeadlockPanics(st: Sys, a: Pcb, b: Pcb) returns (states: seq<Sys>)
    requires Fresh(st) && st.soft == 0 && |st.free| >= 2 && a == st.free[0] && b == st.free[1]
    ensures IsRun(states, [AllocPcb, InsertReady(a), Scheduler(9), CreateProcess, Scheduler(9), Scheduler(1)])
    ensures states[0] == st && states[5].ready == [] && states[5].count == 1
    ensures states[6] == states[5].(status := Panicked)
  {
    var trace;
    states, trace := FamilyRun(st, a, b);
    states, trace := Continue(states, trace, Scheduler(9));
    states, trace := Continue(states, trace, Scheduler(1));
    assert trace == [AllocPcb, InsertReady(a), Scheduler(9), CreateProcess, Scheduler(9), Scheduler(1)];
  }

  lemma ReadyFamilyRun(st: Sys, a: Pcb, b: Pcb) returns (states: seq<Sys>, trace: seq<Step>)
    requires Fresh(st) && |st.free| >= 2 && a == st.free[0] && b == st.free[1]
    ensures trace == [AllocPcb, InsertReady(a), Scheduler(9), CreateProcess, InsertReady(a)]
    ensures IsRun(states, trace) && states[0] == st
    ensures a in st.Table() && Last(states) == Family(st, a, b).(ready := [b, a]) && Last(states).Sound() && a != b
    ensures Victims(Last(states).forest, a) == [b, a]
  {
    states, trace := FamilyRun(st, a, b);
    var t := Last(states);
    states, trace := Continue(states, trace, InsertReady(a));
    StepSound(t, InsertReady(a));
    assert [b] + [a] == [b, a];
    assert KillList(t.forest, b) == [] && KillList(t.forest, a) == [b];
  }

  /** Once the running process is put back on the ready queue by hand, its terminateProcess completes: parent and
      child return to the pool, clean. */
  lemma FamilyDies(st: Sys, a: Pcb, b: Pcb) returns (states: seq<Sys>)
    requires Fresh(st) && |st.free| >= 2 && a == st.free[0] && b == st.free[1]
    ensures IsRun(states, [AllocPcb, InsertReady(a), Scheduler(9), CreateProcess, InsertReady(a), TerminateProcess])
    ensures states[0] == st && states[6].status == Running && states[6].ready == []
    ensures states[6].free == st.free && states[6].Clean() && states[6].count == -1
  {
    var trace;
    states, trace := ReadyFamilyRun(st, a, b);
    var u := Last(states);
    states, trace := Continue(states, trace, TerminateProcess);
    assert trace == [AllocPcb, InsertReady(a), Scheduler(9), CreateProcess, InsertReady(a), TerminateProcess];
    assert [b, a][..1] == [b] && Killable(u.ready, [b, a]);
    TerminateExact(u);
    TerminateReadyExact(u);
    ReverseTwo(b, a);
    assert st.free == [a, b] + st.free[2..];
    FamilyClean(st, a, b, u);
  }

  lemma StrangersRun(st: Sys, a: Pcb, x: Pcb) returns (states: seq<Sys>, trace: seq<Step>)
    requires Fresh(st) && |st.free| >= 2 && a == st.free[0] && x == st.free[1]
    ensures trace == [AllocPcb, InsertReady(a), Scheduler(9), AllocPcb, InsertReady(x), InsertReady(a)]
    ensures IsRun(states, trace) && states[0] == st && x != a && a in st.Table() && x in st.Table()
    ensures Last(states) == st.(free := st.free[2..], ready := [x, a], current := a) && Last(states).Sound()
  {
    states, trace := FirstRun(st, a);
    var t := Last(states);
    assert t.free[0] == x && x in Elems(st.free) && t.free[1..] == st.free[2..];
    states, trace := Continue(states, trace, AllocPcb);
    states, trace := Continue(states, trace, InsertReady(x));
    states, trace := Continue(states, trace, InsertReady(a));
    assert ([] + [x]) + [a] == [x, a];
    InitialSound(st);
    RunSound(states, trace, 6);
  }

  /** When the current process is the tail of the ready queue, a process x that has nothing to do with it is lost. */
  lemma BystanderLost(st: Sys, a: Pcb, x: Pcb) returns (states: seq<Sys>)
    requires Fresh(st) && |st.free| >= 2 && a == st.free[0] && x == st.free[1]
    ensures IsRun(states, [AllocPcb, InsertReady(a), Scheduler(9), AllocPcb, InsertReady(x), InsertReady(a),
                           TerminateProcess])
    ensures states[0] == st && states[7].status == Running && states[7].current == a && a in states[7].free
    ensures states[6].forest.par == map[] && states[6].ready == [x, a]
    ensures states[7].Detached(x) && x != a
    ensures forall held :: Placed(states[7], held) ==> x in held
  {
    var trace;
    states, trace := StrangersRun(st, a, x);
    var u := Last(states);
    states, trace := Continue(states, trace, TerminateProcess);
    assert trace == [AllocPcb, InsertReady(a), Scheduler(9), AllocPcb, InsertReady(x), InsertReady(a),
                     TerminateProcess];
    assert Victims(u.forest, a) == [a] && Reverse([a]) == [a] + Reverse([]) && [a][..0] == [];
    assert Killable(u.ready, [a]);
    TerminateExact(u);
    TerminateReadyExact(u);
    KillAllSound(u, [a]);
    KillAllBlocked(u, [a]);
    assert states[7].free == [a] + st.free[2..];
    assert x in Loose(states[7]);
  }

  lemma ReverseTwo(a: Pcb, b: Pcb)
    ensures Reverse([a, b]) == [b, a]
  {
    assert [a, b][..1] == [a] && [a][..0] == [];
    assert Reverse([a]) == [a] + Reverse([]);
  }

  lemma FamilyClean(st: Sys, a: Pcb, b: Pcb, u: Sys)
    requires Fresh(st) && |st.free| >= 2 && a == st.free[0] && b == st.free[1]
    requires u.Sound() && a in st.Table() && u.forest == st.forest.Insert(a, b) && u.free == st.free[2..]
    requires u.current == a && Enabled(u, TerminateProcess) && Next(u, TerminateProcess).status == Running
    requires a in u.forest.kids && Victims(u.forest, a) == [b, a]
    ensures Next(u, TerminateProcess).Clean()
  {
    forall x | x in u.free ensures u.forest.Isolated(x) {
      assert x in st.free[2..] && x in st.free && x in Elems(st.free) && x != a && x != b;
    }
    TerminateClean(u);
  }
}
