/** The bookkeeping state of the nucleus as a value, and what each operation makes of it. */
module SystemState {
  import opened Lists
  import opened ProcQueue
  import opened Semaphores
  import opened Forests

  /** Halted, Panicked and Waiting stand for HALT, PANIC and WAIT; Faulted for a read through NULL. */
  datatype Status = Running | Halted | Panicked | Waiting | Faulted

  datatype Sys = Sys(
    free: seq<Pcb>,
    ready: seq<Pcb>,
    blocked: Queues,
    forest: Forest,
    current: Pcb?,
    count: int,
    soft: int,
    status: Status)
  {
    ghost function Table(): set<Pcb> {
      forest.kids.Keys
    }

    /** The invariant of every reachable state. */
    ghost predicate Sound() {
      && NoDup(free) && NoDup(ready) && QueuesWf(blocked)
      && Elems(free) <= Table() && Elems(ready) <= Table() && Members(blocked) <= Table()
      && Elems(free) !! Elems(ready) !! Members(blocked)
      && forest.Wf()
      && (current != null ==> current in Table())
    }

    /** No pooled process is left in the forest. */
    ghost predicate Clean() {
      forall p :: p in free ==> forest.Isolated(p)
    }

    ghost predicate Detached(p: Pcb) {
      p in Table() && p !in free && p !in ready && p !in Members(blocked)
    }
  }

  lemma PooledElsewhere(st: Sys, p: Pcb)
    requires st.Sound() && p in st.free
    ensures p in st.Table() && p !in st.ready && p !in Members(st.blocked)
  {
    assert p in Elems(st.free) && (p in st.ready ==> p in Elems(st.ready));
  }

  /** The pool, the ready queue and the semaphore queues have no member in common. */
  lemma ListsApart(st: Sys)
    requires st.Sound()
    ensures forall i {:trigger st.free[i]} :: 0 <= i < |st.free| ==>
              st.free[i] !in st.ready && st.free[i] !in Members(st.blocked)
    ensures forall i {:trigger st.ready[i]} :: 0 <= i < |st.ready| ==> st.ready[i] !in Members(st.blocked)
    ensures forall x :: x in Members(st.blocked) ==> x !in st.ready && x !in st.free
  {
    forall i | 0 <= i < |st.free| ensures st.free[i] !in st.ready && st.free[i] !in Members(st.blocked) {
      PooledElsewhere(st, st.free[i]);
    }
    forall x | x in Members(st.blocked) ensures x !in st.ready && x !in st.free {
      assert x in st.ready ==> x in Elems(st.ready);
      assert x in st.free ==> x in Elems(st.free);
    }
    forall i | 0 <= i < |st.ready| ensures st.ready[i] !in Members(st.blocked) {
      assert st.ready[i] in st.ready;
    }
  }
}
