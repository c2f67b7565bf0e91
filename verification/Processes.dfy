/** The global variables of the kernel that own processes, with process creation, termination and dispatch. */
module Processes {
  import opened Lists
  import opened ProcQueue
  import opened Pool
  import opened Forests
  import opened ProcTree
  import opened Semaphores
  import opened Termination
  import opened SystemState
  import opened Operations
  import opened Killing

  /** allocPcb resets the tree fields of the process it returns. The forest does not notice when that process is
      isolated; otherwise the links no longer represent any forest at all. */
  method AllocReset(pool: PcbPool, ghost f: Forest) returns (p: Pcb?)
    requires pool.Valid() && f.Wf() && Links(f) && f.kids.Keys == Elems(pool.table)
    modifies pool`head, pool`free, if pool.free == [] then {} else {pool.free[0]}
    ensures pool.Valid()
    ensures old(pool.free) == [] ==> p == null && pool.free == []
    ensures old(pool.free) != [] ==> p == old(pool.free)[0] && pool.free == old(pool.free)[1..]
    ensures p != null ==> p.state == 0 && p.semAdd == 0
    ensures p == null || f.Isolated(p) ==> Links(f)
    ensures p != null && !f.Isolated(p) ==> forall g: Forest :: g.Matched() && g.kids.Keys == f.kids.Keys ==> !Links(g)
  {
    if pool.free != [] {
      assert pool.free[0] in Elems(pool.free);
      assert ParentLink(f, pool.free[0]) && ChildLink(f, pool.free[0]);
    }
    p := pool.AllocPcb();
    if p == null || f.Isolated(p) {
      forall x | x in f.kids ensures ParentLink(f, x) && f.Owns(x) && ChildLink(f, x) {
        assert f.Owns(x) && old(ParentLink(f, x)) && old(ChildLink(f, x));
        if p != null { RootUnlisted(f, p, x); }
      }
    } else {
      forall x | x in f.kids && x != p ensures ParentLink(f, x) && ChildLinkBut(f, p, x) {
        assert f.Owns(x) && old(ParentLink(f, x)) && old(ChildLink(f, x));
      }
      forall g: Forest | g.Matched() && g.kids.Keys == f.kids.Keys ensures !Links(g) {
        if Links(g) {
          FamilyLost(f, p, g);
        }
      }
    }
  }

  /** The child list of x, but for the sibling link of p. */
  ghost predicate ChildLinkBut(f: Forest, p: Pcb, x: Pcb)
    requires x in f.kids
    reads x`child, f.kids[x]`sib
  {
    var q := f.kids[x];
    && x.child == (if q == [] then null else q[0])
    && forall i {:trigger q[i].sib} :: 0 <= i < |q| && q[i] != p ==> q[i].sib == Following(q, i)
  }

  /** When p has lost its own links and all others still stand, they represent a forest only if p had no family. */
  lemma FamilyLost(f: Forest, p: Pcb, g: Forest)
    requires f.Wf() && p in f.kids && p.parent == null && p.child == null
    requires forall x {:trigger ParentLink(f, x)} :: x in f.kids && x != p ==> ParentLink(f, x)
    requires forall x {:trigger ChildLinkBut(f, p, x)} :: x in f.kids && x != p ==> ChildLinkBut(f, p, x)
    requires g.Matched() && g.kids.Keys == f.kids.Keys && Links(g)
    ensures f.Isolated(p)
  {
    NotOwnAncestor(f, p);
    assert ParentLink(g, p) && g.Owns(p) && ChildLink(g, p);
    if p in f.par {
      assert f.Listed(p) && Up(f.par, p, 1) == Up(f.par, f.par[p], 0);
      StillListed(f, p, g);
      assert false;
    }
    if f.kids[p] != [] {
      var c := f.kids[p][0];
      AboveChild(f, p, c);
      assert ParentLink(f, c) && ParentLink(g, c);
      ParentHasChild(g, c);
    }
  }

  lemma ParentHasChild(g: Forest, c: Pcb)
    requires g.Matched() && c in g.kids && ParentLink(g, c) && c.parent != null
    ensures c.parent in g.kids && g.kids[c.parent] != []
  {
    assert g.Listed(c);
  }

  /** The list of the parent of p still leads to p. */
  lemma StillListed(f: Forest, p: Pcb, g: Forest)
    requires f.Matched() && p in f.par && f.par[p] in f.kids && f.par[p] != p
    requires ChildLinkBut(f, p, f.par[p])
    requires g.Matched() && g.kids.Keys == f.kids.Keys && Links(g)
    ensures p.parent != null
  {
    var x := f.par[p];
    var k := ChildListed(f, p);
    var q, r := f.kids[x], g.kids[x];
    assert g.Owns(x) && ChildLink(g, x);
    var i := 0;
    while i < k
      invariant i <= k && i < |r| && r[i] == q[i]
    {
      assert q[i] != p && q[i].sib == Following(q, i) && r[i].sib == Following(r, i);
      i := i + 1;
    }
    assert p in r && ParentLink(g, p);
  }

  /** The new process p becomes a child of its creator, inherits its state, and joins the ready queue
      (src/syscall.c:29-32). */
  method Enroll(parent: Pcb, p: Pcb, tail: Pcb?, ghost f: Forest, ghost q: seq<Pcb>,
                ghost head: Pcb?, ghost free: seq<Pcb>)
    returns (newTail: Pcb)
    requires f.Matched() && Links(f) && Ring(tail, q) && Pool.Chain(head, free) && p !in free
    requires forall i {:trigger free[i]} :: 0 <= i < |free| ==> free[i] !in q
    requires parent in f.kids && p in f.kids && p !in f.par && p !in q && p != parent
    modifies p, parent`child, q`next
    ensures Links(f.Insert(parent, p)) && Ring(newTail, q + [p]) && Pool.Chain(head, free)
    ensures p.state == parent.state && p.semAdd == old(p.semAdd)
    ensures p.parent == parent && parent.child == p && p.sib == old(parent.child)
  {
    ProcTree.InsertChild(parent, p, f);
    p.state := parent.state;
    newTail := InsertProcQ(tail, p, q);
  }

  /** The forest without any parent. */
  ghost function NoFamily(table: seq<Pcb>): Forest {
    Forest(map p | p in table :: [], map[])
  }

  lemma NoFamilyLinks(table: seq<Pcb>)
    requires forall p :: p in table ==> p.parent == null && p.child == null && p.sib == null
    ensures Links(NoFamily(table)) && NoFamily(table).kids.Keys == Elems(table)
  {
    var f := NoFamily(table);
    forall x | x in f.kids ensures ParentLink(f, x) && f.Owns(x) && ChildLink(f, x) {
    }
  }

  class Manager {
    const pool: PcbPool
    var readyQueue: Pcb?
    var current: Pcb?
    var count: int
    var soft: int
    var status: Status
    ghost var ready: seq<Pcb>
    ghost var forest: Forest

    /** The state of the system when b are the processes blocked on the semaphores. */
    ghost function View(b: Queues): Sys
      reads this, pool`free
    {
      Sys(pool.free, ready, b, forest, current, count, soft, status)
    }

    /** The linked structures represent the view. */
    ghost predicate Represented()
      reads `readyQueue, `ready, `forest, pool`head, pool`free, pool.free`next, ready`next
      reads forest.kids.Keys`parent, forest.kids.Keys`child, forest.kids.Keys`sib
    {
      pool.Valid() && Ring(readyQueue, ready) && Links(forest) && forest.kids.Keys == Elems(pool.table)
    }

    /** No process is both in the pool and ready. */
    ghost predicate PoolApart()
      reads pool`free, `ready
    {
      forall i {:trigger pool.free[i]} :: 0 <= i < |pool.free| ==> pool.free[i] !in ready
    }

    /** The static storage, zero-initialised. */
    constructor (maxProc: nat)
      ensures fresh(pool) && fresh(pool.table) && |pool.table| == maxProc && NoDup(pool.table)
      ensures forall p :: p in pool.table ==> p.parent == null && p.child == null && p.sib == null
    {
      pool := new PcbPool(maxProc);
      readyQueue, current, count, soft, status := null, null, 0, 0, Running;
      ready, forest := [], Forest(map[], map[]);
    }

    /** The process bookkeeping that main sets up (src/nucleusinizializaiont.c:70-77). */
    method Initialize(ghost b: Queues)
      requires |pool.table| >= 1 && NoDup(pool.table)
      requires forall p :: p in pool.table ==> p.parent == null && p.child == null && p.sib == null
      modifies this, pool, pool.table`next
      ensures Represented()
      ensures View(b) == Sys(pool.table, [], b, NoFamily(pool.table), null, 0, 0, Running)
    {
      count, soft, status, readyQueue, current := 0, 0, Running, null, null;
      ready, forest := [], NoFamily(pool.table);
      NoFamilyLinks(pool.table);
      pool.InitPcbs();
    }

    method AllocPcb(ghost b: Queues) returns (p: Pcb?)
      requires Represented() && PoolApart() && forest.Wf() && (pool.free != [] ==> forest.Isolated(pool.free[0]))
      modifies pool`head, pool`free, if pool.free == [] then {} else {pool.free[0]}
      ensures Represented()
      ensures old(pool.free) == [] ==> p == null && View(b) == old(View(b))
      ensures old(pool.free) != [] ==> p == old(pool.free)[0] && View(b) == old(View(b)).(free := old(pool.free)[1..])
      ensures p != null ==> p.state == 0 && p.semAdd == 0
    {
      p := AllocReset(pool, forest);
    }

    method FreePcb(p: Pcb, ghost b: Queues)
      requires Represented() && p in forest.kids && p !in pool.free && p !in ready
      modifies pool`head, pool`free, p`next
      ensures Represented() && View(b) == old(View(b)).(free := [p] + old(pool.free))
      ensures pool.head == p && p.next == old(pool.head)
    {
      pool.FreePcb(p);
    }

    /** insertProcQ on the ready queue. */
    method InsertReady(p: Pcb, ghost b: Queues)
      requires Represented() && PoolApart() && p !in pool.free && p !in ready
      modifies `readyQueue, `ready, ready`next, p`next
      ensures Represented() && View(b) == old(View(b)).(ready := old(ready) + [p])
    {
      readyQueue := InsertProcQ(readyQueue, p, ready);
      ready := ready + [p];
    }

    /** removeProcQ on the ready queue; its result becomes the current process. */
    method TakeNext(ghost b: Queues)
      requires Represented() && PoolApart()
      modifies `readyQueue, `current, `ready, ready`next
      ensures Represented()
      ensures View(b) == Operations.TakeNext(old(View(b)))
    {
      ghost var q := ready;
      ready := if q == [] then [] else q[1..];
      readyQueue, current := RemoveProcQ(readyQueue, q);
    }

    method InsertChild(prnt: Pcb, p: Pcb)
      requires Represented() && forest.Wf() && prnt in forest.kids && p in forest.kids && p !in forest.par
      modifies `forest, p`sib, p`parent, prnt`child
      ensures Represented() && forest == old(forest).Insert(prnt, p)
      ensures p.parent == prnt && prnt.child == p && (p != prnt ==> p.sib == old(prnt.child))
    {
      ProcTree.InsertChild(prnt, p, forest);
      forest := forest.Insert(prnt, p);
    }

    method OutChild(p: Pcb) returns (r: Pcb?)
      requires Represented() && forest.Wf() && p in forest.kids
      modifies `forest, forest.kids.Keys`child, forest.kids.Keys`parent, forest.kids.Keys`sib
      ensures Represented() && forest == old(forest).Out(p)
      ensures p.parent == null && p.sib == null
      ensures r == if p in old(forest.par) then p else null
    {
      OutMatched(forest, p);
      r := ProcTree.OutChild(p, forest);
      forest := forest.Out(p);
    }

    method RemoveChild(p: Pcb) returns (r: Pcb?)
      requires Represented() && forest.Wf() && p in forest.kids
      modifies `forest, p`child, forest.kids[p]`parent, forest.kids[p]`sib
      ensures Represented()
      ensures forest == if old(forest).kids[p] == [] then old(forest) else old(forest).Out(old(forest).kids[p][0])
      ensures r == if old(forest).kids[p] == [] then null else old(forest).kids[p][0]
      ensures r == old(p.child) && (r != null ==> r.parent == null && r.sib == null && p.child == old(p.child.sib))
    {
      assert forest.Owns(p);
      r := ProcTree.RemoveChild(p, forest);
      if r != null {
        OutMatched(forest, r);
        forest := forest.Out(r);
      }
    }

    // ---------- src/syscall.c ----------

    /** createProcess; v0 is what the parent finds in its result register. */
    method CreateProcess(ghost b: Queues) returns (v0: int)
      requires Represented() && View(b).Sound() && Enabled(View(b), Step.CreateProcess)
      modifies `readyQueue, `count, `status, `ready, `forest, pool`head, pool`free
      modifies (if current == null then {} else {current})`child, ready`next
      modifies if pool.free == [] then {} else {pool.free[0]}
      ensures Represented() && View(b) == Create(old(View(b)))
      ensures current != null ==> v0 == if old(pool.free) == [] then -1 else 0
      ensures current != null && old(pool.free) != [] ==>
                var p := old(pool.free)[0];
                && p.parent == current && current.child == p && p.sib == old(current.child)
                && p.state == old(current.state) && p.semAdd == 0 && readyQueue == p
    {
      if current == null {
        status := Faulted;
        return 0;
      }
      assert PoolApart() by { ListsApart(View(b)); }
      FirstPooled(View(b));
      var p := AllocPcb(b);
      if p == null {
        return -1;
      }
      Admit(p);
      return 0;
    }

    /** What createProcess does with the process it got from the pool (src/syscall.c:29-35). */
    method Admit(p: Pcb)
      requires Represented() && forest.Matched() && current != null && current in forest.kids
      requires p in forest.kids && p !in forest.par && p != current && PoolApart() && p !in ready && p !in pool.free
      modifies `readyQueue, `ready, `forest, `count, current`child, ready`next, p
      ensures Represented() && p.state == old(current.state) && p.semAdd == old(p.semAdd)
      ensures p.parent == current && current.child == p && p.sib == old(current.child)
      ensures ready == old(ready) + [p] && forest == old(forest).Insert(current, p) && count == old(count) + 1
    {
      ghost var f, q := forest, ready;
      var parent: Pcb := current;
      InsertMatched(f, parent, p);
      forest, ready := f.Insert(parent, p), q + [p];
      count := count + 1;
      readyQueue := Enroll(parent, p, readyQueue, f, q, pool.head, pool.free);
    }

    /** terminateSingleProcess: a process that is not ready ends in PANIC, an empty ready queue in a read
        through NULL. sib is the next sibling of the process before it was unlinked. */
    method TerminateSingleProcess(process: Pcb, ghost b: Queues) returns (sib: Pcb?)
      requires Represented() && View(b).Sound() && status == Running && process in forest.kids
      modifies `readyQueue, `count, `status, `ready, `forest, pool`head, pool`free, Elems(ready)`next
      modifies forest.kids.Keys`child, forest.kids.Keys`parent, forest.kids.Keys`sib
      ensures Represented() && View(b) == Kill(old(View(b)), process)
      ensures sib == old(process.sib)
      ensures Elems(ready) <= Elems(old(ready)) && forest.kids.Keys == old(forest.kids.Keys)
    {
      assert PoolApart() by { ListsApart(View(b)); }
      sib := process.sib;
      var parented := OutChild(process);
      Reclaim(process, b);
    }

    /** Its second half: the process leaves the ready queue and returns to the pool (src/syscall.c:54-59). */
    method Reclaim(process: Pcb, ghost b: Queues)
      requires Represented() && PoolApart() && status == Running && process in forest.kids
      modifies `readyQueue, `count, `status, `ready, pool`head, pool`free, Elems(ready)`next
      ensures Represented() && View(b) == Operations.Reclaim(old(View(b)), process)
      ensures Elems(ready) <= Elems(old(ready))
    {
      if readyQueue == null {
        status := Faulted;
        return;
      }
      OutApart(View(b), process);
      var found := OutReady(process, b);
      if found == null {
        status := Panicked;
        return;
      }
      FreePcb(process, b);
      count := count - 1;
    }

    /** outProcQ on the ready queue. */
    method OutReady(p: Pcb, ghost b: Queues) returns (r: Pcb?)
      requires Represented() && PoolApart() && readyQueue != null
      modifies `readyQueue, `ready, ready`next
      ensures Represented() && View(b) == old(View(b)).(ready := OutQ(old(ready), p))
      ensures r == if p in old(ready) then p else null
    {
      ghost var q := ready;
      ready := OutQ(q, p);
      readyQueue, r := OutProcQ(readyQueue, p, q);
    }

    /** The while loop of terminateProcess, from the first child of x on. */
    method KillSiblings(first: Pcb, ghost x: Pcb, ghost b: Queues)
      requires Represented() && View(b).Sound() && status == Running
      requires x in forest.kids && forest.kids[x] != [] && first == forest.kids[x][0]
      modifies `readyQueue, `count, `status, `ready, `forest, pool`head, pool`free, Elems(ready)`next
      modifies forest.kids.Keys`child, forest.kids.Keys`parent, forest.kids.Keys`sib
      ensures Represented() && View(b) == KillAll(old(View(b)), old(forest.kids[x]))
      ensures Elems(ready) <= Elems(old(ready)) && forest.kids.Keys == old(forest.kids.Keys)
    {
      ghost var st, siblings := View(b), forest.kids[x];
      ghost var i := 0;
      var process: Pcb? := first;
      while process != null
        invariant i <= |siblings| && Represented() && status == Running
        invariant View(b) == KillAll(st, siblings[..i])
        invariant i == |siblings| ==> View(b) == KillAll(st, siblings)
        invariant x in forest.kids && forest.kids[x] == siblings[i..]
        invariant process == if i < |siblings| then siblings[i] else null
        invariant Elems(ready) <= Elems(old(ready)) && forest.kids.Keys == old(forest.kids.Keys)
        decreases |siblings| - i
      {
        process := KillFirst(process, x, b, st, siblings, i);
        i := i + 1;
        if status != Running {
          return;
        }
      }
    }

    /** One iteration of that loop. */
    method KillFirst(process: Pcb, ghost x: Pcb, ghost b: Queues, ghost st: Sys, ghost siblings: seq<Pcb>, ghost i: nat)
      returns (sib: Pcb?)
      requires i < |siblings| && process == siblings[i] && Represented() && status == Running
      requires st.Sound() && View(b) == KillAll(st, siblings[..i])
      requires x in forest.kids && forest.kids[x] == siblings[i..]
      modifies `readyQueue, `count, `status, `ready, `forest, pool`head, pool`free, Elems(ready)`next
      modifies forest.kids.Keys`child, forest.kids.Keys`parent, forest.kids.Keys`sib
      ensures Represented() && View(b) == KillAll(st, siblings[..i + 1])
      ensures Elems(ready) <= Elems(old(ready)) && forest.kids.Keys == old(forest.kids.Keys)
      ensures forest.kids[x] == siblings[i + 1..]
      ensures sib == if i + 1 < |siblings| then siblings[i + 1] else null
      ensures status != Running || i + 1 == |siblings| ==> View(b) == KillAll(st, siblings)
    {
      KillAllStep(st, siblings, i);
      NextVictim(forest, x);
      sib := TerminateSingleProcess(process, b);
    }

    /** terminateProcess with the argument its recursive call passes. */
    method TerminateProcess(process: Pcb, ghost b: Queues)
      requires Represented() && View(b).Sound() && status == Running
      requires current != null && current in forest.kids && process in forest.kids
      requires process == current || (process in forest.par && First(forest, process) && forest.Above(current, process))
      modifies `readyQueue, `count, `status, `ready, `forest, pool`head, pool`free, Elems(ready)`next
      modifies forest.kids.Keys`child, forest.kids.Keys`parent, forest.kids.Keys`sib
      ensures Represented() && View(b) == KillAll(old(View(b)), old(Doomed(forest, process, current)))
      ensures Elems(ready) <= Elems(old(ready)) && forest.kids.Keys == old(forest.kids.Keys)
      decreases forest.kids.Keys - forest.Ancestors(process)
    {
      ghost var st, f := View(b), forest;
      assert ChildLink(f, process);
      if process.child != null {
        FirstChildDoomed(f, process, current);
        TerminateProcess(process.child, b);
      }
      assert View(b) == KillAll(st, KillList(f, process));
      DoomedSplit(st, process, current);
      if status != Running {
        return;
      }
      if process != current {
        assert f.Listed(process) && forest.kids[f.par[process]] == f.kids[f.par[process]];
        KillSiblings(process, f.par[process], b);
      } else {
        var sib := TerminateSingleProcess(process, b);
      }
    }

    // ---------- src/ProvaScheduler.c ----------

    /** scheduler. Freeing or queueing no process at all writes through NULL, loading its state reads through NULL. */
    method Scheduler(control: int, ghost b: Queues)
      requires Represented() && View(b).Sound() && Enabled(View(b), Step.Scheduler(control))
      modifies `readyQueue, `current, `count, `status, `ready, pool`head, pool`free, ready`next
      modifies (if control in {0, 1} && Stop(View(b)) == Running && current != null then {current} else {})`next
      ensures Represented() && View(b) == Schedule(old(View(b)), control)
    {
      assert PoolApart() by { ListsApart(View(b)); }
      if readyQueue == null {
        if count == 0 {
          status := Halted;
          return;
        }
        if count > 0 && soft == 0 {
          status := Panicked;
          return;
        }
        if count > 0 && soft > 0 {
          status := Waiting;
          return;
        }
      }
      if (control == 0 || control == 1) && current == null {
        status := Faulted;
        return;
      }
      if control == 0 {
        Retire(b);
      }
      if control == 1 {
        Rotate(b);
      }
      if control == 9 {
        TakeNext(b);
      }
      if current == null {
        status := Faulted;
      }
    }

    /** scheduler(0): the current process has ended. */
    method Retire(ghost b: Queues)
      requires Represented() && PoolApart() && current != null && View(b).Detached(current)
      modifies `readyQueue, `current, `count, `ready, pool`head, pool`free, ready`next, current`next
      ensures Represented()
      ensures View(b) == Operations.TakeNext(old(View(b)).(free := [old(current)] + old(pool.free),
                                                           count := old(count) - 1))
    {
      FreePcb(current, b);
      TakeNext(b);
      count := count - 1;
    }

    /** scheduler(1): the time slice of the current process is over. */
    method Rotate(ghost b: Queues)
      requires Represented() && PoolApart() && current != null && View(b).Detached(current)
      modifies `readyQueue, `current, `ready, ready`next, current`next
      ensures Represented()
      ensures View(b) == Operations.TakeNext(old(View(b)).(ready := old(ready) + [old(current)]))
    {
      InsertReady(current, b);
      TakeNext(b);
    }

    // ---------- any of these operations ----------

    /** What an operation leaves in the fields of the process it was called for. */
    ghost predicate Shown(step: Step)
      reads `readyQueue, pool`head
      reads match step case OutChild(p) => {p} case InsertChild(prnt, p) => {prnt, p} case _ => {}
    {
      match step
      case FreePcb(p) => pool.head == p
      case InsertReady(p) => readyQueue == p
      case InsertChild(prnt, p) => p.parent == prnt && prnt.child == p
      case OutChild(p) => p.parent == null && p.sib == null
      case _ => true
    }

    /** Every operation on the pool, the ready queue and the forest does to the view what its specification says,
        and leaves the links and stamps of blocked processes alone... */
    method Perform(step: Step, ghost b: Queues) returns (reply: Reply)
      requires Represented() && View(b).Sound() && Enabled(View(b), step)
      requires step.AllocPcb? || step.FreePcb? || step.InsertReady?
               || step.InsertChild? || step.OutChild? || step.RemoveChild?
      modifies this, pool, Elems(pool.table) - Members(b)
      modifies Elems(pool.table)`child, Elems(pool.table)`parent, Elems(pool.table)`sib
      ensures Represented() && View(b) == Next(old(View(b)), step) && reply == ReplyTo(old(View(b)), step)
      ensures Shown(step)
    {
      ListsApart(View(b));
      reply := Nothing;
      match step
      case AllocPcb =>
        var p := AllocPcb(b);
        reply := Process(p);
      case FreePcb(p) => FreePcb(p, b);
      case InsertReady(p) => InsertReady(p, b);
      case InsertChild(prnt, p) => InsertChild(prnt, p);
      case OutChild(p) =>
        var r := OutChild(p);
        reply := Process(r);
      case RemoveChild(p) =>
        assert forest.Owns(p);
        var r := RemoveChild(p);
        reply := Process(r);
    }

    /** ... and so do the system calls and the scheduler. */
    method Serve(step: Step, ghost b: Queues) returns (reply: Reply)
      requires Represented() && View(b).Sound() && Enabled(View(b), step)
      requires step.CreateProcess? || step.TerminateProcess? || step.Scheduler?
      modifies this, pool, Elems(pool.table) - Members(b)
      modifies Elems(pool.table)`child, Elems(pool.table)`parent, Elems(pool.table)`sib
      ensures Represented() && View(b) == Next(old(View(b)), step) && reply == ReplyTo(old(View(b)), step)
    {
      ListsApart(View(b));
      reply := Nothing;
      match step
      case CreateProcess =>
        var v0 := CreateProcess(b);
        if current != null {
          reply := Code(v0);
        }
      case TerminateProcess =>
        if current == null {
          status := Faulted;
        } else {
          TerminateProcess(current, b);
        }
      case Scheduler(control) => Scheduler(control, b);
    }
  }

  /** The process that allocPcb is about to hand out. */
  lemma FirstPooled(st: Sys)
    requires st.Sound()
    ensures st.free != [] ==> st.free[0] in st.Table() && st.free[0] !in st.ready && st.free[0] !in st.free[1..]
  {
    if st.free != [] {
      PooledElsewhere(st, st.free[0]);
    }
  }

  /** A process taken off the ready queue is on no list. */
  lemma OutApart(st: Sys, p: Pcb)
    requires NoDup(st.ready) && forall i {:trigger st.free[i]} :: 0 <= i < |st.free| ==> st.free[i] !in st.ready
    ensures p in st.ready ==> p !in st.free && p !in OutQ(st.ready, p)
    ensures Elems(OutQ(st.ready, p)) <= Elems(st.ready)
  {
    DelMembers(st.ready, p);
    assert p !in Elems(Del(st.ready, p));
  }

  /** Once the first child is out, its next sibling is the first. */
  lemma NextVictim(f: Forest, x: Pcb)
    requires f.Wf() && Links(f) && x in f.kids && f.kids[x] != []
    ensures f.kids[x][0] in f.kids && f.kids[x][0].sib == Following(f.kids[x], 0)
    ensures x in f.Out(f.kids[x][0]).kids && f.Out(f.kids[x][0]).kids[x] == f.kids[x][1..]
  {
    assert f.Owns(x) && ChildLink(f, x);
    var c := f.kids[x][0];
    assert c in f.kids[x];
    DelHead(f.kids[x]);
  }
}
