/** The static table of process control blocks and its free list (src/pcb.c:5-65). */
module Pool {
  import opened Lists
  import opened ProcQueue

  /** The NULL-terminated list q starting at head. */
  ghost predicate Chain(head: Pcb?, q: seq<Pcb>)
    reads q`next
  {
    && NoDup(q)
    && head == (if q == [] then null else q[0])
    && forall i {:trigger q[i].next} :: 0 <= i < |q| ==> q[i].next == Following(q, i)
  }

  class PcbPool {
    const table: seq<Pcb>
    var head: Pcb?
    ghost var free: seq<Pcb>

    ghost predicate Valid()
      reads `head, `free, free`next
    {
      Chain(head, free) && Elems(free) <= Elems(table)
    }

    /** The zero-initialised static storage, before any list is threaded through it. */
    constructor (size: nat)
      ensures Valid() && free == []
      ensures |table| == size && NoDup(table) && fresh(table)
      ensures forall p :: p in table ==> p.parent == null && p.child == null && p.sib == null && p.semAdd == 0
    {
      var cells: seq<Pcb> := [];
      while |cells| < size
        invariant |cells| <= size && NoDup(cells) && fresh(cells)
        invariant forall p :: p in cells ==> p.parent == null && p.child == null && p.sib == null && p.semAdd == 0
      {
        var p := new Pcb();
        cells := cells + [p];
      }
      table, head, free := cells, null, [];
    }

    method InitPcbs()
      requires table != [] && NoDup(table)
      modifies this, table`next
      ensures Valid() && free == table
    {
      var i := 0;
      var p := table[0];
      head := p;
      while i < |table| - 1
        invariant 0 <= i < |table| && p == table[i] && head == table[0]
        invariant forall j {:trigger table[j].next} :: 0 <= j < i ==> table[j].next == Following(table, j)
      {
        p.next := table[i + 1];
        p := p.next;
        i := i + 1;
      }
      p.next := null;
      free := table;
    }

    method FreePcb(p: Pcb)
      requires Valid() && p in table && p !in free
      modifies this`head, this`free, p`next
      ensures Valid() && free == [p] + old(free)
    {
      if head != null {
        p.next := head;
        head := p;
      } else {
        p.next := null;
        head := p;
      }
      free := [p] + free;
    }

    method AllocPcb() returns (p: Pcb?)
      requires Valid()
      modifies this`head, this`free, if free == [] then {} else {free[0]}
      ensures Valid()
      ensures old(free) == [] ==> p == null && free == []
      ensures old(free) != [] ==> p == old(free)[0] && free == old(free)[1..]
      ensures p != null ==> p.next == null && p.parent == null && p.child == null && p.sib == null
      ensures p != null ==> p.state == 0 && p.semAdd == 0
    {
      if head == null {
        return null;
      }
      p := head;
      head := p.next;
      p.next := null;
      p.parent := null;
      p.child := null;
      p.sib := null;
      p.state := 0;
      p.semAdd := 0;
      free := free[1..];
    }
  }
}
