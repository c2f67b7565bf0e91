/** The active semaphore list of src/asl.c, kept behind a dummy descriptor, and the free descriptors. */
module ActiveSemaphores {
  import opened Lists
  import opened ProcQueue
  import opened Semaphores
  import opened SemLists

  /** Descriptor d owns the queue that b gives to its semaphore. */
  ghost predicate Owns(d: Semd, b: Queues)
    reads d`semAdd, d`procQ, QueueOf(b, d.semAdd)`next
  {
    d.semAdd in b && Ring(d.procQ, b[d.semAdd])
  }

  /** The processes blocked on s carry its address. */
  ghost predicate Stamped(b: Queues, s: nat)
    reads QueueOf(b, s)`semAdd
  {
    forall p :: p in QueueOf(b, s) ==> p.semAdd == s
  }

  ghost predicate Listed(b: Queues, s: nat) {
    Elems(QueueOf(b, s)) <= Members(b)
  }

  /** The descriptors in q, in ascending order, represent the map b. */
  ghost predicate Represents(q: seq<Semd>, b: Queues)
    reads q`semAdd, q`procQ, Members(b)`next, Members(b)`semAdd
  {
    && Ascending(q) && Addresses(q) == b.Keys && QueuesWf(b)
    && (forall d {:trigger Owns(d, b)} :: d in q ==> Listed(b, d.semAdd) && Owns(d, b))
    && (forall s {:trigger Stamped(b, s)} :: s in b ==> Listed(b, s) && Stamped(b, s))
  }

  /** A list of descriptors, the map it represents, and the descriptor whose queue is being relinked, if any. */
  datatype Scene = Scene(q: seq<Semd>, b: Queues, touched: Semd?)

  ghost function Relinked(c: Scene): set<Pcb>
    reads if c.touched == null then {} else {c.touched}
  {
    if c.touched == null then {} else Elems(QueueOf(c.b, c.touched.semAdd))
  }

  /** What nobody touches stays as it was: all other descriptors own their queues, all processes keep their stamps. */
  twostate lemma OthersStay(c: Scene)
    requires old(Represents(c.q, c.b)) && (c.touched != null ==> c.touched in c.q)
    requires forall e :: e in c.q ==> e.semAdd == old(e.semAdd) && (e != c.touched ==> e.procQ == old(e.procQ))
    requires forall x :: x in Members(c.b) ==> x.semAdd == old(x.semAdd)
    requires forall x :: x in Members(c.b) && x !in Relinked(c) ==> x.next == old(x.next)
    ensures Ascending(c.q) && Addresses(c.q) == c.b.Keys
    ensures forall e {:trigger Owns(e, c.b)} :: e in c.q && e != c.touched ==> Owns(e, c.b)
    ensures forall t {:trigger Stamped(c.b, t)} :: t in c.b ==> Stamped(c.b, t)
    ensures c.touched == null ==> Represents(c.q, c.b)
  {
    var q, b, d := c.q, c.b, c.touched;
    assert Addresses(q) == b.Keys;
    forall k: nat | k < |q| ensures Rising(q, k) {
      assert old(Rising(q, k));
    }
    AllListed(b);
    forall e | e in q && e != d ensures Owns(e, b) {
      assert old(Owns(e, b));
      if d != null {
        SameDescriptor(q, d, e);
        Apart(b, d.semAdd, e.semAdd);
      }
      assert Listed(b, e.semAdd);
      assert forall x :: x in QueueOf(b, e.semAdd) ==> x in Elems(QueueOf(b, e.semAdd)) && x.next == old(x.next);
    }
    forall t | t in b ensures Stamped(b, t) {
      assert old(Stamped(b, t)) && Listed(b, t);
      assert forall x :: x in QueueOf(b, t) ==> x in Elems(QueueOf(b, t));
    }
  }

  /** No two descriptors in use have the same address. */
  lemma SameDescriptor(q: seq<Semd>, d: Semd, e: Semd)
    requires Ascending(q) && d in q && e in q
    ensures d.semAdd == e.semAdd <==> d == e
  {
    var i :| 0 <= i < |q| && q[i] == d;
    var j :| 0 <= j < |q| && q[j] == e;
    assert Rising(q, i) && Rising(q, j);
  }

  lemma AllListed(b: Queues)
    ensures forall t {:trigger Listed(b, t)} :: Listed(b, t)
  {
    forall t ensures Listed(b, t) {
      Queued(b, t);
    }
  }

  lemma Extended(q: seq<Semd>, i: nat, add: Semd, b: Queues, s: nat, p: Pcb)
    requires Ascending(q) && Addresses(q) == b.Keys && QueuesWf(b)
    requires s !in b && p !in Members(b) && i <= |q| && add !in q
    requires forall d' {:trigger Owns(d', b)} :: d' in q ==> Owns(d', b)
    requires forall t {:trigger Stamped(b, t)} :: t in b ==> Stamped(b, t)
    requires forall j {:trigger q[j].semAdd} :: 0 <= j < i ==> q[j].semAdd < s
    requires i < |q| ==> q[i].semAdd > s
    requires add.semAdd == s && Ring(add.procQ, [p]) && p.semAdd == s
    ensures Represents(InsertAt(q, i, add), Block(b, s, p))
  {
    var c := Block(b, s, p);
    InsertedElems(q, i, add);
    InsertedAscending(q, i, add);
    BlockWf(b, s, p);
    AllListed(c);
    ExtendedOwners(q, i, add, b, s, p);
    ExtendedStamps(b, s, p);
  }

  lemma ExtendedOwners(q: seq<Semd>, i: nat, add: Semd, b: Queues, s: nat, p: Pcb)
    requires s !in b && i <= |q| && add !in q
    requires forall d' {:trigger Owns(d', b)} :: d' in q ==> Owns(d', b)
    requires add.semAdd == s && Ring(add.procQ, [p])
    ensures forall d {:trigger Owns(d, Block(b, s, p))} :: d in InsertAt(q, i, add) ==> Owns(d, Block(b, s, p))
  {
    var r, c := InsertAt(q, i, add), Block(b, s, p);
    assert c[s] == [p];
    InsertedElems(q, i, add);
    forall d | d in r ensures Owns(d, c) {
      assert d in Elems(r);
      if d != add {
        assert Owns(d, b);
      }
    }
  }

  lemma ExtendedStamps(b: Queues, s: nat, p: Pcb)
    requires forall t {:trigger Stamped(b, t)} :: t in b ==> Stamped(b, t)
    requires p.semAdd == s
    ensures forall t {:trigger Stamped(Block(b, s, p), t)} :: t in Block(b, s, p) ==> Stamped(Block(b, s, p), t)
  {
    var c := Block(b, s, p);
    forall t | t in c ensures Stamped(c, t) {
      assert t in b ==> Stamped(b, t);
    }
  }

  lemma Appended(q: seq<Semd>, d: Semd, b: Queues, s: nat, p: Pcb)
    requires Ascending(q) && Addresses(q) == b.Keys && QueuesWf(b)
    requires d in q && d.semAdd == s && s in b && p !in Members(b)
    requires forall d' {:trigger Owns(d', b)} :: d' in q && d' != d ==> Owns(d', b)
    requires forall t {:trigger Stamped(b, t)} :: t in b ==> Stamped(b, t)
    requires Ring(d.procQ, b[s] + [p]) && p.semAdd == s
    ensures Represents(q, Block(b, s, p))
  {
    var c := Block(b, s, p);
    BlockWf(b, s, p);
    AllListed(c);
    forall e | e in q ensures Owns(e, c) {
      if e != d {
        SameDescriptor(q, d, e);
        assert Owns(e, b);
      }
    }
    ExtendedStamps(b, s, p);
  }

  lemma Shortened(q: seq<Semd>, d: Semd, b: Queues, s: nat, r: seq<Pcb>)
    requires Ascending(q) && Addresses(q) == b.Keys && QueuesWf(b) && d in q && d.semAdd == s && s in b
    requires forall d' {:trigger Owns(d', b)} :: d' in q && d' != d ==> Owns(d', b)
    requires forall t {:trigger Stamped(b, t)} :: t in b ==> Stamped(b, t)
    requires r != [] && Elems(r) <= Elems(b[s]) && Ring(d.procQ, r)
    ensures Represents(q, Replace(b, s, r))
  {
    var c := Replace(b, s, r);
    ReplaceWf(b, s, r);
    AllListed(c);
    forall e | e in q ensures Owns(e, c) {
      if e != d {
        SameDescriptor(q, d, e);
        assert Owns(e, b);
      }
    }
    forall t | t in c ensures Stamped(c, t) {
      assert Stamped(b, t) && forall x :: x in r ==> x in Elems(r);
    }
  }

  lemma Deactivated(q: seq<Semd>, k: nat, b: Queues, s: nat)
    requires NoDup(q) && k < |q| && Ascending(q) && Addresses(q) == b.Keys && QueuesWf(b) && q[k].semAdd == s
    requires forall d' {:trigger Owns(d', b)} :: d' in q && d' != q[k] ==> Owns(d', b)
    requires forall t {:trigger Stamped(b, t)} :: t in b ==> Stamped(b, t)
    ensures Represents(RemoveAt(q, k), Replace(b, s, []))
  {
    var r, c := RemoveAt(q, k), Replace(b, s, []);
    assert q[k] in q && s in Addresses(q);
    RemovedElems(q, k);
    RemovedAscending(q, k);
    ReplaceWf(b, s, []);
    AllListed(c);
    forall e | e in r ensures Owns(e, c) {
      assert e in Elems(r);
      assert Owns(e, b) && e.semAdd in Addresses(r);
    }
    forall t | t in c ensures Stamped(c, t) {
      assert Stamped(b, t);
    }
  }

  /** A fresh descriptor takes p as the only process of its queue (src/asl.c:28-31, 39). */
  method Occupy(add: Semd, s: nat, p: Pcb, ghost q: seq<Semd>, ghost i: nat, ghost b: Queues)
    requires Represents(q, b) && s !in b && p !in Members(b) && i <= |q| && add !in q
    requires forall j {:trigger q[j].semAdd} :: 0 <= j < i ==> q[j].semAdd < s
    requires i < |q| ==> q[i].semAdd > s
    modifies add`semAdd, add`procQ, p`next, p`semAdd
    ensures Represents(InsertAt(q, i, add), Block(b, s, p))
  {
    add.semAdd := s;
    add.procQ := null;
    add.procQ := p;
    p.next := p;
    p.semAdd := s;
    forall k: nat | k < |q| ensures Rising(q, k) {
      assert old(Rising(q, k));
    }
    assert Addresses(q) == b.Keys;
    forall d | d in q ensures Owns(d, b) {
      NotQueued(b, d.semAdd, p);
      assert old(Owns(d, b));
    }
    forall t | t in b ensures Stamped(b, t) {
      NotQueued(b, t, p);
      assert old(Stamped(b, t));
    }
    Extended(q, i, add, b, s, p);
  }

  /** p joins the queue of the descriptor d (src/asl.c:36, 39). */
  method Join(d: Semd, s: nat, p: Pcb, ghost q: seq<Semd>, ghost b: Queues)
    requires Represents(q, b) && d in q && d.semAdd == s && p !in Members(b)
    modifies d`procQ, QueueOf(b, s)`next, p`next, p`semAdd
    ensures Represents(q, Block(b, s, p))
  {
    assert Owns(d, b);
    NotQueued(b, s, p);
    var tail := InsertProcQ(d.procQ, p, b[s]);
    d.procQ := tail;
    p.semAdd := s;
    OthersStay(Scene(q, b, d));
    Appended(q, d, b, s, p);
  }

  /** removeBlocked pops through a local copy of the tail pointer (src/asl.c:62-64). Not writing the copy back
      is right: it still equals the field unless the queue is empty, and then the descriptor is released. */
  method Pop(d: Semd, ghost s: nat, ghost q: seq<Semd>, ghost k: nat, ghost b: Queues) returns (tail: Pcb?, r: Pcb)
    requires Represents(q, b) && NoDup(q) && k < |q| && d == q[k] && d.semAdd == s
    modifies QueueOf(b, s)`next
    ensures s in b && b[s] != [] && r == b[s][0]
    ensures tail == null <==> |b[s]| == 1
    ensures tail != null ==> tail == d.procQ
    ensures Represents(if tail == null then RemoveAt(q, k) else q, Wake(b, s))
  {
    assert d in q && Owns(d, b) && QueueWf(b, s);
    tail, r := PopFront(d, s, q, b);
    if tail != null {
      TailElems(b[s]);
      Shortened(q, d, b, s, b[s][1..]);
    } else {
      assert b[s][1..] == [];
      Deactivated(q, k, b, s);
    }
  }

  /** removeProcQ on the queue of d; the other descriptors and their queues stay as they are. */
  method PopFront(d: Semd, ghost s: nat, ghost q: seq<Semd>, ghost b: Queues) returns (tail: Pcb?, r: Pcb)
    requires Represents(q, b) && d in q && d.semAdd == s && s in b && b[s] != []
    requires Ring(d.procQ, b[s])
    modifies QueueOf(b, s)`next
    ensures r == b[s][0] && Ring(tail, b[s][1..]) && (|b[s]| != 1 ==> tail == d.procQ)
    ensures forall e {:trigger Owns(e, b)} :: e in q && e != d ==> Owns(e, b)
    ensures forall t {:trigger Stamped(b, t)} :: t in b ==> Stamped(b, t)
  {
    var first;
    tail, first := RemoveProcQ(d.procQ, b[s]);
    r := first;
    OthersStay(Scene(q, b, d));
  }

  /** All that outBlocked does to the map happens in the queue that the address of p names. */
  lemma OneQueue(q: seq<Semd>, b: Queues, i: nat, p: Pcb)
    requires Represents(q, b) && i < |q| && q[i].semAdd == p.semAdd
    ensures p.semAdd in b && b[p.semAdd] != [] && Elems(b[p.semAdd]) <= Members(b)
    ensures p in Members(b) <==> p in b[p.semAdd]
    ensures Unblock(b, p) == Replace(b, p.semAdd, OutQ(b[p.semAdd], p))
    ensures OutQ(b[p.semAdd], p) == [] <==> p == LastOf(b, p.semAdd)
  {
    var s := p.semAdd;
    assert q[i] in q && Owns(q[i], b) && QueueWf(b, s);
    Queued(b, s);
    if p in Members(b) {
      var t :| t in b && p in b[t];
      assert Stamped(b, t);
    }
    OutQEmpties(b[s], p);
    UnblockHere(b, s, p);
  }

  lemma TailElems(q: seq<Pcb>)
    requires q != []
    ensures Elems(q[1..]) <= Elems(q)
  {
  }

  /** outBlocked takes p out of the queue of d, through the field itself (src/asl.c:93). */
  method Withdraw(d: Semd, ghost s: nat, p: Pcb, ghost q: seq<Semd>, ghost k: nat, ghost b: Queues) returns (r: Pcb?)
    requires Represents(q, b) && NoDup(q) && k < |q| && d == q[k] && d.semAdd == s
    modifies d`procQ, QueueOf(b, s)`next
    ensures s in b && r == if p in b[s] then p else null
    ensures d.procQ == null <==> OutQ(b[s], p) == []
    ensures Represents(if d.procQ == null then RemoveAt(q, k) else q, Replace(b, s, OutQ(b[s], p)))
  {
    assert d in q && Owns(d, b) && QueueWf(b, s);
    OutQEmpties(b[s], p);
    r := TakeOut(d, s, p, q, b);
    if d.procQ != null {
      Shortened(q, d, b, s, OutQ(b[s], p));
    } else {
      Deactivated(q, k, b, s);
    }
  }

  /** outProcQ on the queue of d; the other descriptors and their queues stay as they are. */
  method TakeOut(d: Semd, ghost s: nat, p: Pcb, ghost q: seq<Semd>, ghost b: Queues) returns (r: Pcb?)
    requires Represents(q, b) && d in q && d.semAdd == s && s in b && b[s] != []
    requires Ring(d.procQ, b[s])
    modifies d`procQ, QueueOf(b, s)`next
    ensures r == (if p in b[s] then p else null) && Ring(d.procQ, OutQ(b[s], p))
    ensures forall e {:trigger Owns(e, b)} :: e in q && e != d ==> Owns(e, b)
    ensures forall t {:trigger Stamped(b, t)} :: t in b ==> Stamped(b, t)
  {
    var tail;
    tail, r := OutProcQ(d.procQ, p, b[s]);
    d.procQ := tail;
    OthersStay(Scene(q, b, d));
  }

  /** The dummy, the descriptors in use, the free ones and the leaked ones make up the table, without overlap. */
  ghost predicate Shares(table: seq<Semd>, inUse: seq<Semd>, free: seq<Semd>, leaked: set<Semd>) {
    && table != [] && table[0] !in inUse && table[0] !in free
    && NoDup(inUse) && NoDup(free) && Elems(inUse) !! Elems(free)
    && {table[0]} + Elems(inUse) + Elems(free) + leaked == Elems(table)
    && Elems(inUse) <= Elems(table) && Elems(free) <= Elems(table) && Elems([table[0]] + inUse) <= Elems(table)
  }

  lemma SharesApart(table: seq<Semd>, inUse: seq<Semd>, free: seq<Semd>, leaked: set<Semd>)
    requires Shares(table, inUse, free, leaked)
    ensures NoCommon([table[0]] + inUse, free) && NoDup([table[0]] + inUse)
    ensures forall d :: d in [table[0]] + inUse || d in free ==> d in Elems(table)
  {
    forall i {:trigger free[i]} | 0 <= i < |free| ensures free[i] !in [table[0]] + inUse {
      assert free[i] in Elems(free) && free[i] !in Elems(inUse) && free[i] in free;
    }
    NoDupConcat([table[0]], inUse);
    assert forall d :: d in [table[0]] + inUse ==> d in Elems([table[0]] + inUse);
    assert forall d :: d in free ==> d in Elems(free);
  }

  lemma SharesTaken(table: seq<Semd>, inUse: seq<Semd>, free: seq<Semd>, leaked: set<Semd>, i: nat)
    requires Shares(table, inUse, free, leaked) && free != [] && i <= |inUse|
    ensures free[0] !in inUse && free[0] in Elems(table)
    ensures Shares(table, InsertAt(inUse, i, free[0]), free[1..], leaked)
    ensures [table[0]] + InsertAt(inUse, i, free[0]) == InsertAt([table[0]] + inUse, i + 1, free[0])
  {
    assert free == [free[0]] + free[1..] && free[0] in Elems(free);
    InsertedElems(inUse, i, free[0]);
    ConcatElems([table[0]], InsertAt(inUse, i, free[0]));
    assert forall x :: x in InsertAt(inUse, i, free[0]) ==> x in Elems(InsertAt(inUse, i, free[0]));
  }

  lemma SharesReturned(table: seq<Semd>, inUse: seq<Semd>, free: seq<Semd>, leaked: set<Semd>, i: nat, j: nat)
    requires Shares(table, inUse, free, leaked) && i < |inUse| && j <= |free|
    ensures Shares(table, RemoveAt(inUse, i), InsertAt(free, j, inUse[i]), leaked)
    ensures [table[0]] + RemoveAt(inUse, i) == RemoveAt([table[0]] + inUse, i + 1)
  {
    assert inUse[i] in Elems(inUse);
    SharesDropped(table, inUse, free, leaked, i);
    InsertedElems(free, j, inUse[i]);
    RemovedElems(inUse, i);
    assert forall x :: x in InsertAt(free, j, inUse[i]) ==> x in Elems(InsertAt(free, j, inUse[i]));
  }

  lemma SharesDropped(table: seq<Semd>, inUse: seq<Semd>, free: seq<Semd>, leaked: set<Semd>, i: nat)
    requires Shares(table, inUse, free, leaked) && i < |inUse|
    ensures Shares(table, RemoveAt(inUse, i), free, leaked + {inUse[i]})
    ensures [table[0]] + RemoveAt(inUse, i) == RemoveAt([table[0]] + inUse, i + 1)
  {
    assert inUse[i] in Elems(inUse);
    RemovedElems(inUse, i);
    ConcatElems([table[0]], RemoveAt(inUse, i));
    assert forall x :: x in RemoveAt(inUse, i) ==> x in Elems(RemoveAt(inUse, i));
  }

  class Asl {
    const table: seq<Semd>
    var head: Semd?
    var freeHead: Semd?
    ghost var inUse: seq<Semd>
    ghost var free: seq<Semd>
    ghost var blocked: Queues
    /** The descriptor that was in nobody's list when outBlocked ran into a NULL semdFree_h; null before that. */
    ghost var leaked: Semd?

    ghost function Leaked(): set<Semd>
      reads `leaked
    {
      if leaked == null then {} else {leaked}
    }

    ghost predicate Partition()
      reads `inUse, `free, `leaked
    {
      Shares(table, inUse, free, Leaked())
    }

    ghost function Chain(): seq<Semd>
      requires table != []
      reads `inUse
    {
      [table[0]] + inUse
    }

    ghost predicate Linked()
      reads `head, `freeHead, `inUse, `free, `leaked, Elems(table)`next
    {
      && Partition()
      && SemList(head, Chain()) && SemList(freeHead, free)
    }

    ghost predicate Valid()
      reads this, Elems(table), Members(blocked)`next, Members(blocked)`semAdd
    {
      Linked() && Represents(inUse, blocked)
    }

    /** Descriptors are conserved: one for each active semaphore, the free ones, and the dummy. */
    lemma DescriptorCount()
      requires Valid() && NoDup(table) && leaked == null
      ensures |blocked| + |free| + 1 == |table|
    {
      AddressCount(inUse);
      NoDupCard(inUse);
      NoDupCard(free);
      NoDupCard(table);
      assert |{table[0]} + Elems(inUse) + Elems(free)| == 1 + |inUse| + |free|;
    }

    constructor (size: nat)
      ensures |table| == size + 1 && NoDup(table) && fresh(table)
    {
      var cells: seq<Semd> := [];
      while |cells| < size + 1
        invariant |cells| <= size + 1 && NoDup(cells) && fresh(cells)
      {
        var d := new Semd();
        cells := cells + [d];
      }
      table, head, freeHead := cells, null, null;
      inUse, free, blocked, leaked := [], [], map[], null;
    }

    method InitASL()
      requires |table| >= 2 && NoDup(table)
      modifies this, table
      ensures Valid() && blocked == map[] && leaked == null
    {
      var p: Semd? := table[1];
      freeHead := p;
      head := table[0];
      head.semAdd := 0;
      head.procQ := null;
      head.next := null;
      var i := 1;
      while i < |table|
        invariant 1 <= i <= |table|
        invariant p == if i < |table| then table[i] else null
        invariant freeHead == table[1] && head == table[0] && head.next == null
        invariant forall j {:trigger table[j].next} :: 1 <= j < i ==> table[j].next == After(table, j)
      {
        if i < |table| - 1 {
          p.next := table[i + 1];
        } else {
          p.next := null;
        }
        p := p.next;
        i := i + 1;
      }
      inUse, free, blocked, leaked := [], table[1..], map[], null;
      assert table == [table[0]] + table[1..];
      assert forall j {:trigger free[j].next} :: 0 <= j < |free| ==> free[j] == table[j + 1];
    }

    /** A free descriptor is taken into use behind prec (src/asl.c:24-27). */
    method TakeFree(prec: Semd, ghost i: nat) returns (add: Semd)
      requires Linked() && free != [] && i <= |inUse| && prec == Chain()[i]
      modifies this`freeHead, this`inUse, this`free, Elems(table)`next
      ensures Linked() && add == old(free)[0] && add !in old(inUse)
      ensures inUse == InsertAt(old(inUse), i, add) && free == old(free)[1..]
    {
      ghost var chain, rest := Chain(), free;
      SharesApart(table, inUse, free, Leaked());
      SharesTaken(table, inUse, free, Leaked(), i);
      add := freeHead;
      inUse, free := InsertAt(inUse, i, add), free[1..];
      freeHead := MoveIn(prec, freeHead, head, chain, rest, i);
    }

    /** The descriptor behind prec leaves the list and becomes the first free one (src/asl.c:68-71). */
    method ReleaseFirst(prec: Semd, ghost i: nat)
      requires Linked() && i < |inUse| && prec == Chain()[i]
      modifies this`freeHead, this`inUse, this`free, Elems(table)`next
      ensures Linked()
      ensures inUse == RemoveAt(old(inUse), i) && free == [old(inUse)[i]] + old(free)
    {
      ghost var chain, rest := Chain(), free;
      SharesApart(table, inUse, free, Leaked());
      SharesReturned(table, inUse, free, Leaked(), i, 0);
      assert InsertAt(free, 0, inUse[i]) == [inUse[i]] + free && chain[i + 1] == inUse[i];
      inUse, free := RemoveAt(inUse, i), [inUse[i]] + free;
      freeHead := MoveOut(prec, freeHead, head, chain, rest, i);
    }

    /** The descriptor behind prec leaves the list and becomes the second free one (src/asl.c:95-97). */
    method ReleaseSecond(prec: Semd, tmp: Semd, ghost i: nat)
      requires Linked() && i < |inUse| && prec == Chain()[i] && tmp == inUse[i] && free != []
      modifies this`inUse, this`free, Elems(table)`next
      ensures Linked()
      ensures inUse == RemoveAt(old(inUse), i) && free == InsertAt(old(free), 1, tmp)
    {
      ghost var chain, rest := Chain(), free;
      SharesApart(table, inUse, free, Leaked());
      SharesReturned(table, inUse, free, Leaked(), i, 1);
      assert chain[i + 1] == tmp && rest[0] in rest;
      inUse, free := RemoveAt(inUse, i), InsertAt(free, 1, tmp);
      MoveBehind(prec, tmp, freeHead, head, chain, rest, i);
    }

    /** insertBlocked: TRUE, and no change, when a new descriptor is needed and none is free. */
    method InsertBlocked(s: nat, p: Pcb) returns (full: bool)
      requires Valid()
      requires p !in Members(blocked) || (s !in blocked && free == [])
      modifies `freeHead, `inUse, `free, `blocked, Elems(table), Members(blocked)`next, p`next, p`semAdd
      ensures Valid()
      ensures full <==> s !in old(blocked) && old(free) == []
      ensures blocked == if full then old(blocked) else Block(old(blocked), s, p)
      ensures full ==> p.next == old(p.next) && p.semAdd == old(p.semAdd)
    {
      var tmp := head;
      ghost var i := 0;
      ghost var chain := Chain();
      assert tmp.next == After(chain, 0);
      while tmp.next != null && tmp.next.semAdd < s
        invariant 0 <= i < |chain| && tmp == chain[i] && tmp.next == After(chain, i)
        invariant forall j {:trigger inUse[j].semAdd} :: 0 <= j < i ==> inUse[j].semAdd < s
        decreases |chain| - i
      {
        assert chain[i + 1] == inUse[i];
        tmp := tmp.next;
        i := i + 1;
        assert chain[i].next == After(chain, i);
      }
      assert i < |inUse| ==> chain[i + 1] == inUse[i];
      OrderedSearch(inUse, i, s);
      if tmp.next == null || tmp.next.semAdd > s {
        if freeHead == null {
          return true;
        } else {
          Activate(tmp, s, p, i);
        }
      } else {
        if tmp.next.semAdd == s {
          Enqueue(tmp.next, s, p);
        }
      }
      return false;
    }

    /** insertBlocked on an inactive semaphore; prec is the descriptor before its place. */
    method Activate(prec: Semd, s: nat, p: Pcb, ghost i: nat)
      requires Valid() && free != [] && p !in Members(blocked) && s !in blocked
      requires i <= |inUse| && prec == Chain()[i]
      requires forall j {:trigger inUse[j].semAdd} :: 0 <= j < i ==> inUse[j].semAdd < s
      requires i < |inUse| ==> inUse[i].semAdd > s
      modifies `freeHead, `inUse, `free, `blocked, Elems(table), p`next, p`semAdd
      ensures Valid() && blocked == Block(old(blocked), s, p)
    {
      ghost var q, b := inUse, blocked;
      var add := TakeFree(prec, i);
      blocked := Block(b, s, p);
      Occupy(add, s, p, q, i, b);
    }

    /** insertBlocked on the active semaphore of d. */
    method Enqueue(d: Semd, s: nat, p: Pcb)
      requires Valid() && p !in Members(blocked) && d in inUse && d.semAdd == s
      modifies this`blocked, Elems(table)`procQ, Members(blocked)`next, p`next, p`semAdd
      ensures Valid() && blocked == Block(old(blocked), s, p)
    {
      ghost var b := blocked;
      Queued(b, s);
      assert d in Elems(inUse);
      blocked := Block(b, s, p);
      Join(d, s, p, inUse, b);
    }

    /** removeBlocked: the head of the queue of s, NULL when s is not active. */
    method RemoveBlocked(s: nat) returns (r: Pcb?)
      requires Valid()
      modifies `freeHead, `inUse, `free, `blocked, Elems(table)`next, Members(blocked)`next
      ensures Valid()
      ensures blocked == Wake(old(blocked), s)
      ensures r == if QueueOf(old(blocked), s) == [] then null else QueueOf(old(blocked), s)[0]
    {
      r := null;
      var prec := head;
      ghost var i := 0;
      ghost var chain := Chain();
      assert prec.next == After(chain, 0);
      while prec.next != null && prec.next.semAdd != s
        invariant 0 <= i < |chain| && prec == chain[i] && prec.next == After(chain, i)
        invariant forall j {:trigger inUse[j].semAdd} :: 0 <= j < i ==> inUse[j].semAdd != s
        decreases |chain| - i
      {
        assert chain[i + 1] == inUse[i];
        prec := prec.next;
        i := i + 1;
        assert chain[i].next == After(chain, i);
      }
      assert i < |inUse| ==> chain[i + 1] == inUse[i];
      FullScan(inUse, i, s);
      if prec.next == null {
        return null;
      }
      if prec.next.semAdd == s {
        r := PopBehind(prec, s, i);
      }
    }

    method PopBehind(prec: Semd, ghost s: nat, ghost i: nat) returns (r: Pcb)
      requires Valid() && i < |inUse| && prec == Chain()[i] && prec.next == inUse[i] && inUse[i].semAdd == s
      modifies `freeHead, `inUse, `free, `blocked, Elems(table)`next, Members(blocked)`next
      ensures Valid() && blocked == Wake(old(blocked), s)
      ensures QueueOf(old(blocked), s) != [] && r == QueueOf(old(blocked), s)[0]
    {
      ghost var b := blocked;
      Queued(b, s);
      blocked := Wake(b, s);
      var tail;
      tail, r := PopLinked(prec.next, s, i, b);
      SettleFirst(prec, tail, i);
    }

    /** Popping a queue does not touch the lists of descriptors. */
    method PopLinked(d: Semd, ghost s: nat, ghost i: nat, ghost b: Queues) returns (tail: Pcb?, r: Pcb)
      requires Linked() && Represents(inUse, b) && i < |inUse| && d == inUse[i] && d.semAdd == s
      modifies QueueOf(b, s)`next
      ensures Linked() && s in b && b[s] != [] && r == b[s][0]
      ensures Represents(if tail == null then RemoveAt(inUse, i) else inUse, Wake(b, s))
    {
      tail, r := Pop(d, s, inUse, i, b);
    }

    /** A descriptor whose queue has become empty is retired (src/asl.c:66-71). */
    method SettleFirst(prec: Semd, tail: Pcb?, ghost i: nat)
      requires Linked() && i < |inUse| && prec == Chain()[i]
      requires Represents(if tail == null then RemoveAt(inUse, i) else inUse, blocked)
      modifies this`freeHead, this`inUse, this`free, Elems(table)`next
      ensures Valid()
    {
      if tail == null {
        RetireFirst(prec, i);
      }
    }

    method RetireFirst(prec: Semd, ghost i: nat)
      requires Linked() && i < |inUse| && prec == Chain()[i] && Represents(RemoveAt(inUse, i), blocked)
      modifies this`freeHead, this`inUse, this`free, Elems(table)`next
      ensures Valid()
    {
      ReleaseFirst(prec, i);
      OthersStay(Scene(inUse, blocked, null));
    }

    method RetireSecond(prec: Semd, tmp: Semd, ghost i: nat)
      requires Linked() && i < |inUse| && prec == Chain()[i] && tmp == inUse[i] && free != []
      requires Represents(RemoveAt(inUse, i), blocked)
      modifies this`inUse, this`free, Elems(table)`next
      ensures Valid()
    {
      ReleaseSecond(prec, tmp, i);
      OthersStay(Scene(inUse, blocked, null));
    }

    /** outBlocked: p when it is on the queue named by its own address, else NULL. The search reads the address of
        a descriptor before it tests for NULL (src/asl.c:85); low is whatever that read finds at NULL, and does not
        matter. The fault is the splice behind a NULL semdFree_h (src/asl.c:96). */
    method OutBlocked(p: Pcb) returns (r: Pcb?, fault: bool)
      requires Valid() && leaked == null
      modifies `inUse, `free, `blocked, `leaked, Elems(table)`next, Elems(table)`procQ, Members(blocked)`next
      ensures Valid() && blocked == Unblock(old(blocked), p)
      ensures !fault ==> r == if p in Members(old(blocked)) then p else null
      ensures fault <==> old(freeHead) == null && p in Members(old(blocked)) && p == LastOf(old(blocked), p.semAdd)
      ensures fault <==> leaked != null
    {
      r, fault := null, false;
      var low: nat := *;
      var tmp := head.next;
      var prec := head;
      ghost var i := 0;
      ghost var chain := Chain();
      assert prec.next == After(chain, 0);
      while (if tmp == null then low else tmp.semAdd) != p.semAdd && tmp != null
        invariant 0 <= i < |chain| && prec == chain[i] && prec.next == tmp == After(chain, i)
        invariant forall j {:trigger inUse[j].semAdd} :: 0 <= j < i ==> inUse[j].semAdd != p.semAdd
        decreases |chain| - i
      {
        assert chain[i + 1] == inUse[i];
        prec := tmp;
        tmp := tmp.next;
        i := i + 1;
        assert chain[i].next == After(chain, i);
      }
      assert i < |inUse| ==> chain[i + 1] == inUse[i];
      FullScan(inUse, i, p.semAdd);
      NowhereElse(p);
      if tmp != null {
        r, fault := WithdrawBehind(prec, tmp, p, i);
      } else {
        UnblockStranger(blocked, p);
      }
    }

    method WithdrawBehind(prec: Semd, tmp: Semd, p: Pcb, ghost i: nat) returns (r: Pcb?, fault: bool)
      requires Valid() && i < |inUse| && prec == Chain()[i] && tmp == inUse[i] && tmp.semAdd == p.semAdd
      requires leaked == null
      modifies `inUse, `free, `blocked, `leaked, Elems(table)`next, Elems(table)`procQ, Members(blocked)`next
      ensures Valid() && blocked == Unblock(old(blocked), p)
      ensures r == if p in Members(old(blocked)) then p else null
      ensures fault <==> old(freeHead) == null && p == LastOf(old(blocked), p.semAdd)
      ensures fault <==> leaked != null
    {
      ghost var q, b := inUse, blocked;
      OneQueue(q, b, i, p);
      assert tmp in Elems(table);
      blocked := Replace(b, p.semAdd, OutQ(b[p.semAdd], p));
      r := WithdrawLinked(tmp, p, i, b);
      assert tmp.procQ == null <==> p == LastOf(b, p.semAdd);
      fault := SettleSecond(prec, tmp, i);
    }

    /** Taking p out of a queue does not touch the lists of descriptors. */
    method WithdrawLinked(d: Semd, p: Pcb, ghost i: nat, ghost b: Queues) returns (r: Pcb?)
      requires Linked() && Represents(inUse, b) && i < |inUse| && d == inUse[i] && d.semAdd == p.semAdd
      modifies d`procQ, QueueOf(b, p.semAdd)`next
      ensures Linked() && d.semAdd in b && r == if p in b[d.semAdd] then p else null
      ensures d.procQ == null <==> OutQ(b[d.semAdd], p) == []
      ensures Represents(if d.procQ == null then RemoveAt(inUse, i) else inUse,
                         Replace(b, d.semAdd, OutQ(b[d.semAdd], p)))
    {
      r := Withdraw(d, p.semAdd, p, inUse, i, b);
    }

    /** A descriptor whose queue has become empty is retired, if there is a free one to put it behind
        (src/asl.c:94-98). */
    method SettleSecond(prec: Semd, tmp: Semd, ghost i: nat) returns (fault: bool)
      requires Linked() && i < |inUse| && prec == Chain()[i] && tmp == inUse[i] && leaked == null
      requires Represents(if tmp.procQ == null then RemoveAt(inUse, i) else inUse, blocked)
      modifies `inUse, `free, `leaked, Elems(table)`next
      ensures Valid()
      ensures fault <==> old(freeHead == null && tmp.procQ == null)
      ensures fault <==> leaked != null
    {
      fault := false;
      if tmp.procQ == null {
        if freeHead == null {
          Lose(prec, tmp, i);
          return true;
        }
        RetireSecond(prec, tmp, i);
      }
    }

    /** The descriptor has left the list when semdFree_h turns out to be NULL (src/asl.c:95). */
    method Drop(prec: Semd, tmp: Semd, ghost i: nat)
      requires Linked() && i < |inUse| && prec == Chain()[i] && tmp == inUse[i] && leaked == null
      modifies `inUse, `leaked, Elems(table)`next
      ensures Linked() && leaked == tmp && inUse == RemoveAt(old(inUse), i)
    {
      ghost var chain := Chain();
      assert prec.next == After(chain, i) && chain[i + 1].next == After(chain, i + 1);
      SharesApart(table, inUse, free, Leaked());
      SharesDropped(table, inUse, free, Leaked(), i);
      inUse, leaked := RemoveAt(inUse, i), tmp;
      prec.next := tmp.next;
      Bypassed(head, chain, i);
    }

    method Lose(prec: Semd, tmp: Semd, ghost i: nat)
      requires Linked() && i < |inUse| && prec == Chain()[i] && tmp == inUse[i] && leaked == null
      requires Represents(RemoveAt(inUse, i), blocked)
      modifies `inUse, `leaked, Elems(table)`next
      ensures Valid() && leaked == tmp
    {
      Drop(prec, tmp, i);
      OthersStay(Scene(inUse, blocked, null));
    }

    /** A process that is not on the queue its address names is on none: a stale address is harmless. */
    lemma NowhereElse(p: Pcb)
      requires Valid()
      ensures p in Members(blocked) <==> p.semAdd in blocked && p in blocked[p.semAdd]
    {
      if p in Members(blocked) {
        var s :| s in blocked && p in blocked[s];
        assert Stamped(blocked, s);
      }
    }

    /** headBlocked */
    method HeadBlocked(s: nat) returns (r: Pcb?)
      requires Valid()
      ensures r == if QueueOf(blocked, s) == [] then null else QueueOf(blocked, s)[0]
    {
      var tmp := head.next;
      ghost var i := 0;
      ghost var chain := Chain();
      assert chain[0].next == After(chain, 0);
      while tmp != null && tmp.semAdd != s
        invariant 0 <= i < |chain| && tmp == After(chain, i)
        invariant forall j {:trigger inUse[j].semAdd} :: 0 <= j < i ==> inUse[j].semAdd != s
        decreases |chain| - i
      {
        assert chain[i + 1] == inUse[i];
        tmp := tmp.next;
        i := i + 1;
        assert chain[i].next == After(chain, i);
      }
      assert i < |inUse| ==> chain[i + 1] == inUse[i];
      FullScan(inUse, i, s);
      if tmp != null {
        assert Owns(tmp, blocked) && QueueWf(blocked, s);
        if tmp.procQ != null {
          return tmp.procQ.next;
        }
      }
      return null;
    }
  }
}
