/** The nucleus: all the lists of the kernel together, linked through the same process control blocks. */
module Nucleus {
  import opened Lists
  import opened ProcQueue
  import opened Semaphores
  import opened ActiveSemaphores
  import opened SystemState
  import opened Operations
  import opened Guarantees
  import opened Runs
  import opened Processes

  /** The state after initPcbs and initASL, with all global variables zero. */
  ghost function InitialState(table: seq<Pcb>): Sys {
    Sys(table, [], map[], NoFamily(table), null, 0, 0, Running)
  }

  lemma InitialStateSound(table: seq<Pcb>)
    requires NoDup(table)
    ensures Initial(InitialState(table)) && InitialState(table).Sound() && InitialState(table).Clean()
    ensures |InitialState(table).Table()| == |table|
  {
    assert NoFamily(table).kids.Keys == Elems(table);
    NoDupCard(table);
    InitialSound(InitialState(table));
  }

  class Kernel {
    const procs: Manager
    const asl: Asl

    ghost function View(): Sys
      reads procs, procs.pool`free, asl`blocked
    {
      procs.View(asl.blocked)
    }

    /** The linked structures represent a sound state, with one descriptor for each process and the dummy; only a
        fault loses a descriptor. */
    ghost predicate Valid()
      reads procs, procs.pool, procs.pool.free`next, procs.ready`next, procs.forest.kids.Keys`parent
      reads procs.forest.kids.Keys`child, procs.forest.kids.Keys`sib
      reads asl, Elems(asl.table), Members(asl.blocked)`next, Members(asl.blocked)`semAdd
    {
      && procs.Represented() && View().Sound()
      && asl.Valid() && NoDup(asl.table) && |asl.table| == |View().Table()| + 1
      && (asl.leaked != null ==> procs.status == Faulted)
    }

    /** The static storage, zero-initialised. */
    constructor (maxProc: nat)
      ensures fresh(procs) && fresh(procs.pool) && fresh(procs.pool.table) && fresh(asl) && fresh(asl.table)
      ensures |procs.pool.table| == maxProc && NoDup(procs.pool.table)
      ensures |asl.table| == maxProc + 1 && NoDup(asl.table)
      ensures forall p :: p in procs.pool.table ==> p.parent == null && p.child == null && p.sib == null
    {
      procs := new Manager(maxProc);
      asl := new Asl(maxProc);
    }

    /** main up to the creation of the first process (src/nucleusinizializaiont.c:70-77). */
    method Initialize()
      requires |procs.pool.table| >= 1 && NoDup(procs.pool.table)
      requires |asl.table| == |procs.pool.table| + 1 && NoDup(asl.table)
      requires forall p :: p in procs.pool.table ==> p.parent == null && p.child == null && p.sib == null
      modifies procs, procs.pool, procs.pool.table`next, asl, asl.table
      ensures Valid() && View() == InitialState(procs.pool.table)
    {
      InitialStateSound(procs.pool.table);
      NoDupCard(procs.pool.table);
      InitLists();
    }

    method InitLists()
      requires |procs.pool.table| >= 1 && NoDup(procs.pool.table) && |asl.table| >= 2 && NoDup(asl.table)
      requires forall p :: p in procs.pool.table ==> p.parent == null && p.child == null && p.sib == null
      modifies procs, procs.pool, procs.pool.table`next, asl, asl.table
      ensures procs.Represented() && asl.Valid() && asl.leaked == null && View() == InitialState(procs.pool.table)
    {
      procs.Initialize(map[]);
      asl.InitASL();
    }

    /** The blocked processes are neither ready nor in the pool. */
    ghost predicate BlockedApart()
      reads asl`blocked, procs`ready, procs.pool`free
    {
      forall x {:trigger x in Members(asl.blocked)} :: x in Members(asl.blocked) ==>
        x !in procs.ready && x !in procs.pool.free
    }

    // Each of the next three methods makes one call and shows what it leaves alone in the other structures.

    /** insertBlocked beside the other lists, which it disturbs only if p is on one of them. */
    method BlockBeside(s: nat, p: Pcb) returns (full: bool)
      requires procs.Represented() && asl.Valid() && BlockedApart() && p !in Members(asl.blocked)
      modifies asl`freeHead, asl`inUse, asl`free, asl`blocked
      modifies Elems(asl.table), Members(asl.blocked)`next, p`next, p`semAdd
      ensures asl.Valid() && (p !in procs.ready && p !in procs.pool.free ==> procs.Represented())
      ensures full <==> s !in old(asl.blocked) && old(asl.free) == []
      ensures asl.blocked == if full then old(asl.blocked) else Block(old(asl.blocked), s, p)
    {
      full := asl.InsertBlocked(s, p);
    }

    /** outBlocked beside the other lists, which it leaves alone. */
    method UnblockBeside(p: Pcb) returns (r: Pcb?, fault: bool)
      requires procs.Represented() && asl.Valid() && asl.leaked == null && BlockedApart()
      modifies asl, Elems(asl.table)`next, Elems(asl.table)`procQ, Members(asl.blocked)`next
      ensures procs.Represented() && asl.Valid() && asl.blocked == Unblock(old(asl.blocked), p)
      ensures !fault ==> r == if p in Members(old(asl.blocked)) then p else null
      ensures fault <==> old(asl.freeHead) == null && p in Members(old(asl.blocked))
                         && p == LastOf(old(asl.blocked), p.semAdd)
      ensures fault <==> asl.leaked != null
    {
      r, fault := asl.OutBlocked(p);
    }

    /** ... and a fault stops the machine. */
    method UnblockOrStop(p: Pcb) returns (r: Pcb?, fault: bool)
      requires procs.Represented() && asl.Valid() && asl.leaked == null && BlockedApart()
      modifies asl, Elems(asl.table)`next, Elems(asl.table)`procQ, Members(asl.blocked)`next, procs`status
      ensures procs.Represented() && asl.Valid()
      ensures View() == old(View()).(blocked := Unblock(old(asl.blocked), p),
                                     status := if fault then Faulted else old(procs.status))
      ensures !fault ==> r == if p in Members(old(asl.blocked)) then p else null
      ensures fault <==> old(asl.freeHead) == null && p in Members(old(asl.blocked))
                         && p == LastOf(old(asl.blocked), p.semAdd)
      ensures fault <==> asl.leaked != null
    {
      r, fault := UnblockBeside(p);
      if fault {
        procs.status := Faulted;
      }
    }

    lemma FreeHeadCount()
      requires Valid() && procs.status == Running
      ensures asl.freeHead == null <==> asl.free == []
      ensures asl.freeHead == null <==> |asl.blocked| == |View().Table()|
    {
      asl.DescriptorCount();
    }

    lemma FreeHeadTail(p: Pcb)
      requires Valid() && procs.status == Running && p in View().Table()
      ensures asl.freeHead == null <==> TakeBlocked(View(), p).status == Faulted
      ensures asl.freeHead == null ==> p in Members(asl.blocked) && p == LastOf(asl.blocked, p.semAdd)
    {
      FreeHeadCount();
      Exhausted(View());
      asl.NowhereElse(p);
    }

    /** semdFree_h is NULL exactly when every process is blocked, each alone on its semaphore, and then each is the
        tail of the queue its address names: any outBlocked reaches the splice. */
    lemma FreeHeadNull()
      requires Valid() && procs.status == Running
      ensures asl.freeHead == null <==>
                Members(asl.blocked) == View().Table() && forall s :: s in asl.blocked ==> |asl.blocked[s]| == 1
      ensures asl.freeHead == null ==>
                forall p :: p in View().Table() ==> p in Members(asl.blocked) && p == LastOf(asl.blocked, p.semAdd)
    {
      FreeHeadCount();
      Exhausted(View());
      forall p | p in View().Table()
        ensures asl.freeHead == null ==> p in Members(asl.blocked) && p == LastOf(asl.blocked, p.semAdd)
      {
        FreeHeadTail(p);
      }
    }

    /** While some process is not blocked, a descriptor is free. */
    lemma FreeHeadLeft(p: Pcb)
      requires Valid() && procs.status == Running && p in View().Table() && p !in Members(asl.blocked)
      ensures asl.freeHead != null && asl.free != []
    {
      FreeHeadCount();
      NeverFull(View(), p);
    }

    /** insertBlocked never returns TRUE for a process that is not blocked already, ready and pooled ones included. */
    method InsertAny(s: nat, p: Pcb) returns (full: bool)
      requires Valid() && procs.status == Running && p in View().Table() && p !in Members(asl.blocked)
      modifies asl`freeHead, asl`inUse, asl`free, asl`blocked
      modifies Elems(asl.table), Members(asl.blocked)`next, p`next, p`semAdd
      ensures !full && asl.Valid() && asl.blocked == Block(old(asl.blocked), s, p)
    {
      FreeHeadLeft(p);
      full := asl.InsertBlocked(s, p);
    }

    /** For a process on no list, the whole system takes the step. */
    method InsertBlocked(s: nat, p: Pcb) returns (full: bool)
      requires Valid() && Enabled(View(), Step.InsertBlocked(s, p))
      modifies asl`freeHead, asl`inUse, asl`free, asl`blocked
      modifies Elems(asl.table), Members(asl.blocked)`next, p`next, p`semAdd
      ensures Valid() && View() == Next(old(View()), Step.InsertBlocked(s, p)) && !full && p.semAdd == s
    {
      assert BlockedApart() by { ListsApart(View()); }
      FreeHeadLeft(p);
      StepSound(View(), Step.InsertBlocked(s, p));
      full := BlockBeside(s, p);
      assert Stamped(asl.blocked, s) && p in QueueOf(asl.blocked, s);
    }

    method RemoveBlocked(s: nat) returns (r: Pcb?)
      requires Valid() && Enabled(View(), Step.RemoveBlocked(s))
      modifies asl`freeHead, asl`inUse, asl`free, asl`blocked, Elems(asl.table)`next, Members(asl.blocked)`next
      ensures Valid() && View() == Next(old(View()), Step.RemoveBlocked(s))
      ensures Process(r) == ReplyTo(old(View()), Step.RemoveBlocked(s))
    {
      ListsApart(View());
      StepSound(View(), Step.RemoveBlocked(s));
      r := asl.RemoveBlocked(s);
    }

    /** outBlocked, which faults exactly when semdFree_h is NULL. */
    method OutBlocked(p: Pcb) returns (r: Pcb?, fault: bool)
      requires Valid() && Enabled(View(), Step.OutBlocked(p))
      modifies asl, Elems(asl.table)`next, Elems(asl.table)`procQ, Members(asl.blocked)`next, procs`status
      ensures Valid() && View() == Next(old(View()), Step.OutBlocked(p))
      ensures fault <==> old(asl.freeHead) == null
      ensures fault <==> procs.status == Faulted
      ensures !fault ==> Process(r) == ReplyTo(old(View()), Step.OutBlocked(p))
    {
      assert BlockedApart() by { ListsApart(View()); }
      StepSound(View(), Step.OutBlocked(p));
      FreeHeadTail(p);
      r, fault := UnblockOrStop(p);
    }

    /** One operation of the system. */
    method Perform(step: Step) returns (reply: Reply)
      requires Valid() && Enabled(View(), step)
      modifies procs, procs.pool, Elems(procs.pool.table), asl, Elems(asl.table)
      ensures Valid() && View() == Next(old(View()), step) && reply == ReplyTo(old(View()), step)
      ensures procs.Shown(step)
    {
      StepSound(View(), step);
      match step
      case InsertBlocked(s, p) =>
        var full := InsertBlocked(s, p);
        reply := Full(full);
      case RemoveBlocked(s) =>
        var r := RemoveBlocked(s);
        reply := Process(r);
      case OutBlocked(p) =>
        var r, fault := OutBlocked(p);
        reply := if fault then Nothing else Process(r);
      case CreateProcess => reply := Serve(step);
      case TerminateProcess => reply := Serve(step);
      case Scheduler(_) => reply := Serve(step);
      case _ => reply := Manage(step);
    }

    method Serve(step: Step) returns (reply: Reply)
      requires Valid() && Enabled(View(), step)
      requires step.CreateProcess? || step.TerminateProcess? || step.Scheduler?
      modifies procs, procs.pool, Elems(procs.pool.table)
      ensures procs.Represented() && asl.Valid()
      ensures View() == Next(old(View()), step) && reply == ReplyTo(old(View()), step)
    {
      reply := procs.Serve(step, asl.blocked);
    }

    method Manage(step: Step) returns (reply: Reply)
      requires Valid() && Enabled(View(), step)
      requires step.AllocPcb? || step.FreePcb? || step.InsertReady?
               || step.InsertChild? || step.OutChild? || step.RemoveChild?
      modifies procs, procs.pool, Elems(procs.pool.table)
      ensures procs.Represented() && asl.Valid()
      ensures View() == Next(old(View()), step) && reply == ReplyTo(old(View()), step)
      ensures procs.Shown(step)
    {
      reply := procs.Perform(step, asl.blocked);
    }

    method Advance(trace: seq<Step>, ghost states: seq<Sys>, i: nat) returns (reply: Reply)
      requires Valid() && IsRun(states, trace) && i < |trace| && View() == states[i]
      modifies procs, procs.pool, Elems(procs.pool.table), asl, Elems(asl.table)
      ensures Valid() && View() == states[i + 1] && reply == Replies(states, trace)[i]
    {
      assert StepAt(states, trace, i);
      reply := Perform(trace[i]);
    }

    /** Every run of the specification is carried out by the linked structures, state by state and reply by reply. */
    method Run(trace: seq<Step>, ghost states: seq<Sys>) returns (replies: seq<Reply>)
      requires Valid() && IsRun(states, trace) && View() == states[0]
      modifies procs, procs.pool, Elems(procs.pool.table), asl, Elems(asl.table)
      ensures Valid() && View() == states[|trace|]
      ensures replies == Replies(states, trace)
    {
      ghost var expected := Replies(states, trace);
      replies := [];
      var i := 0;
      while i < |trace|
        invariant i <= |trace| && Valid() && View() == states[i] && replies == expected[..i]
      {
        PrefixNext(expected, i);
        var reply := Advance(trace, states, i);
        replies := replies + [reply];
        i := i + 1;
      }
      assert expected[..i] == expected;
    }
  }
}
