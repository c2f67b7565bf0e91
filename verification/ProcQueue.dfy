/** Process control blocks and the circular process queues of src/pcb.c. */
module ProcQueue {
  import opened Lists

  /** One entry of the static process table (src/pcb.h:8-18). Semaphore addresses are naturals, 0 is NULL. */
  class Pcb {
    var next: Pcb?
    var parent: Pcb?
    var child: Pcb?
    var sib: Pcb?
    var state: int
    var semAdd: nat

    constructor ()
      ensures next == null && parent == null && child == null && sib == null && state == 0 && semAdd == 0
    {
      next, parent, child, sib, state, semAdd := null, null, null, null, 0, 0;
    }
  }

  /** The successor of q[i] in a NULL-terminated list. */
  ghost function Following(q: seq<Pcb>, i: nat): Pcb?
    requires i < |q|
  {
    if i + 1 < |q| then q[i + 1] else null
  }

  /** The successor of q[i] in a ring. */
  ghost function Around(q: seq<Pcb>, i: nat): Pcb
    requires i < |q|
  {
    if i + 1 < |q| then q[i + 1] else q[0]
  }

  /** tail points to the last member of the ring q, whose members point to their successors; NULL when q is empty. */
  ghost predicate Ring(tail: Pcb?, q: seq<Pcb>)
    reads q`next
  {
    && NoDup(q)
    && tail == (if q == [] then null else Last(q))
    && forall i {:trigger q[i].next} :: 0 <= i < |q| ==> q[i].next == Around(q, i)
  }

  /** What outProcQ leaves of the queue q: the whole queue goes when p is its last member. */
  ghost function OutQ(q: seq<Pcb>, p: Pcb): seq<Pcb> {
    if p !in q then q
    else if p == Last(q) then []
    else Del(q, p)
  }

  /** A tail pointer and the heap determine the queue: at most one sequence is represented. */
  lemma {:induction false} RingUnique(tail: Pcb?, q: seq<Pcb>, r: seq<Pcb>)
    requires Ring(tail, q) && Ring(tail, r)
    ensures q == r
  {
    if q != [] && r != [] {
      var n := if |q| <= |r| then |q| else |r|;
      RingAgree(tail, q, r, n);
      assert q[n - 1] == r[n - 1];
      assert |q| == |r|;
    }
  }

  lemma {:induction false} RingAgree(tail: Pcb?, q: seq<Pcb>, r: seq<Pcb>, n: nat)
    requires Ring(tail, q) && Ring(tail, r) && n <= |q| && n <= |r|
    ensures q[..n] == r[..n]
  {
    if n > 0 {
      RingAgree(tail, q, r, n - 1);
      if n > 1 {
        assert q[n - 2] == q[..n - 1][n - 2] == r[..n - 1][n - 2] == r[n - 2];
        assert q[n - 2].next == Around(q, n - 2) && r[n - 2].next == Around(r, n - 2);
      } else {
        assert q[|q| - 1].next == Around(q, |q| - 1) && r[|r| - 1].next == Around(r, |r| - 1);
      }
      assert q[..n] == q[..n - 1] + [q[n - 1]] && r[..n] == r[..n - 1] + [r[n - 1]];
    }
  }

  method InsertProcQ(tail: Pcb?, p: Pcb, ghost q: seq<Pcb>) returns (newTail: Pcb)
    requires Ring(tail, q) && p !in q
    modifies q`next, p`next
    ensures newTail == p
    ensures Ring(newTail, q + [p])
  {
    if tail == null {
      p.next := p;
    } else {
      assert q[|q| - 1].next == Around(q, |q| - 1);
      p.next := tail.next;
      tail.next := p;
    }
    newTail := p;
    NoDupConcat(q, [p]);
    ghost var r := q + [p];
    forall i {:trigger r[i]} | 0 <= i < |r| ensures r[i].next == Around(r, i) {
      assert i < |q| - 1 ==> q[i].next == old(q[i].next);
    }
  }

  method RemoveProcQ(tail: Pcb?, ghost q: seq<Pcb>) returns (newTail: Pcb?, r: Pcb?)
    requires Ring(tail, q)
    modifies q`next
    ensures r == if q == [] then null else q[0]
    ensures Ring(newTail, if q == [] then [] else q[1..])
    ensures |q| != 1 ==> newTail == tail
  {
    if tail == null {
      return null, null;
    }
    assert q[|q| - 1].next == Around(q, |q| - 1) && q[0].next == Around(q, 0);
    var p := tail.next;
    if tail == p {
      assert |q| == 1;
      return null, p;
    }
    tail.next := p.next;
    assert forall i {:trigger q[i].next} :: 0 < i < |q| - 1 ==> q[i].next == Around(q, i);
    RingCut(tail, q, 0);
    return tail, p;
  }

  /** Bypassing q[k], which is not the tail, in the ring q. */
  lemma RingCut(tail: Pcb, q: seq<Pcb>, k: nat)
    requires NoDup(q) && k < |q| - 1 && tail == Last(q)
    requires (if k == 0 then Last(q) else q[k - 1]).next == q[k + 1]
    requires forall i {:trigger q[i].next} :: 0 <= i < |q| && i != k && i != (if k == 0 then |q| - 1 else k - 1) ==>
               q[i].next == Around(q, i)
    ensures Ring(tail, q[..k] + q[k + 1..])
  {
    DelAt(q, k);
    DelMembers(q, q[k]);
    var r := q[..k] + q[k + 1..];
    forall i {:trigger r[i]} | 0 <= i < |r| ensures r[i].next == Around(r, i) {
      assert r[i].next == q[if i < k then i else i + 1].next;
    }
  }

  /** The search loop stops because the queue is a ring; a NULL tail is outside what the code can read. */
  method OutProcQ(tail: Pcb, p: Pcb, ghost q: seq<Pcb>) returns (newTail: Pcb?, r: Pcb?)
    requires Ring(tail, q)
    modifies q`next
    ensures Ring(newTail, OutQ(q, p))
    ensures r == if p in q then p else null
    ensures p in q ==> p.next == null
    ensures newTail == null <==> p == tail
    ensures p !in q || p == tail ==> forall x :: x in q && x != p ==> x.next == old(x.next)
  {
    var tmp := tail;
    ghost var k := 0;
    assert tmp == q[|q| - 1] && tmp.next == Around(q, |q| - 1);
    while tmp.next != tail
      invariant 0 <= k < |q|
      invariant tmp == (if k == 0 then tail else q[k - 1]) && tmp.next == q[k]
      invariant p !in q[..k]
      decreases |q| - k
    {
      assert q[..k + 1] == q[..k] + [q[k]] && q[k].next == Around(q, k);
      if tmp.next == p {
        tmp.next := p.next;
        p.next := null;
        DelAt(q, k);
        assert forall i {:trigger q[i].next} :: 0 <= i < |q| && q[i] != p && q[i] != tmp ==> q[i].next == Around(q, i);
        RingCut(tail, q, k);
        return tail, p;
      } else {
        tmp := tmp.next;
        k := k + 1;
      }
    }
    assert k == |q| - 1 && q == q[..k] + [q[k]];
    if tail == p {
      if tmp.next == p {
        p.next := null;
        return null, p;
      }
      // Unreachable: the loop has just ended with tmp.next == tail, and tail == p (src/pcb.c:153-157).
      assert false;
    }
    return tail, null;
  }

  method HeadProcQ(tail: Pcb?, ghost q: seq<Pcb>) returns (head: Pcb?)
    requires Ring(tail, q)
    ensures head == if q == [] then null else q[0]
  {
    if tail == null {
      return null;
    }
    assert q[|q| - 1].next == Around(q, |q| - 1);
    return tail.next;
  }

  /** outProcQ keeps its documented promise, to remove p and nothing else, exactly when p is not the
      last member of a longer queue. */
  lemma OutQExact(q: seq<Pcb>, p: Pcb)
    requires NoDup(q)
    ensures OutQ(q, p) == Del(q, p) <==> p !in q || p != Last(q) || |q| == 1
  {
    DelMembers(q, p);
  }

  /** A queue is emptied by outProcQ exactly when its tail is taken out, whatever its length. */
  lemma OutQEmpties(q: seq<Pcb>, p: Pcb)
    requires NoDup(q) && q != []
    ensures OutQ(q, p) == [] <==> p == Last(q)
    ensures NoDup(OutQ(q, p)) && Elems(OutQ(q, p)) <= Elems(q)
  {
    DelMembers(q, p);
    if p in q && |q| == 1 {
      assert q[0] == p;
    }
  }

  /** The smallest failing family: removing b from the queue a, b also loses a. */
  lemma OutQLosesRest(a: Pcb, b: Pcb)
    requires a != b
    ensures OutQ([a, b], b) == [] && Del([a, b], b) == [a]
  {
    DelAt([a, b], 1);
  }
}
