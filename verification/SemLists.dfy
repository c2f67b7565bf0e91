/** Semaphore descriptors and the singly linked lists they form (src/asl.h:13-17, src/asl.c). */
module SemLists {
  import opened Lists
  import opened ProcQueue

  class Semd {
    var next: Semd?
    var semAdd: nat
    var procQ: Pcb?

    constructor ()
      ensures next == null && semAdd == 0 && procQ == null
    {
      next, semAdd, procQ := null, 0, null;
    }
  }

  /** The successor of q[i] in a NULL-terminated list. */
  ghost function After(q: seq<Semd>, i: nat): Semd?
    requires i < |q|
  {
    if i + 1 < |q| then q[i + 1] else null
  }

  /** The NULL-terminated list q starting at head. */
  ghost predicate SemList(head: Semd?, q: seq<Semd>)
    reads q`next
  {
    && NoDup(q)
    && head == (if q == [] then null else q[0])
    && forall i {:trigger q[i].next} :: 0 <= i < |q| ==> q[i].next == After(q, i)
  }

  ghost predicate Rising(q: seq<Semd>, i: nat)
    requires i < |q|
    reads q`semAdd
  {
    forall j {:trigger q[j]} :: i < j < |q| ==> q[i].semAdd < q[j].semAdd
  }

  /** Semaphore addresses ascend strictly. */
  ghost predicate Ascending(q: seq<Semd>)
    reads q`semAdd
  {
    forall i: nat {:trigger Rising(q, i)} :: i < |q| ==> Rising(q, i)
  }

  ghost function Addresses(q: seq<Semd>): set<nat>
    reads q`semAdd
  {
    set d | d in q :: d.semAdd
  }

  ghost function InsertAt(q: seq<Semd>, k: nat, d: Semd): seq<Semd>
    requires k <= |q|
  {
    q[..k] + [d] + q[k..]
  }

  ghost function RemoveAt(q: seq<Semd>, k: nat): seq<Semd>
    requires k < |q|
  {
    q[..k] + q[k + 1..]
  }

  lemma InsertedElems(q: seq<Semd>, k: nat, d: Semd)
    requires k <= |q|
    ensures Elems(InsertAt(q, k, d)) == Elems(q) + {d}
    ensures NoDup(q) && d !in q ==> NoDup(InsertAt(q, k, d))
  {
    var r := InsertAt(q, k, d);
    assert q == q[..k] + q[k..];
    forall x | x in Elems(q) + {d} ensures x in r {
      if x in q {
        var i :| 0 <= i < |q| && q[i] == x;
        assert r[if i < k then i else i + 1] == x;
      } else {
        assert r[k] == x;
      }
    }
  }

  lemma RemovedElems(q: seq<Semd>, k: nat)
    requires NoDup(q) && k < |q|
    ensures Elems(RemoveAt(q, k)) == Elems(q) - {q[k]} && NoDup(RemoveAt(q, k))
  {
    DelAt(q, k);
    DelMembers(q, q[k]);
  }

  /** Splicing d in behind q[k]. */
  lemma Spliced(head: Semd?, q: seq<Semd>, k: nat, d: Semd)
    requires NoDup(q) && k < |q| && d !in q && head == q[0]
    requires q[k].next == d && d.next == After(q, k)
    requires forall i {:trigger q[i].next} :: 0 <= i < |q| && i != k ==> q[i].next == After(q, i)
    ensures SemList(head, InsertAt(q, k + 1, d))
  {
    InsertedElems(q, k + 1, d);
    var r := InsertAt(q, k + 1, d);
    forall i {:trigger r[i]} | 0 <= i < |r| ensures r[i].next == After(r, i) {
      if i <= k {
        assert q[i].next == r[i].next;
      } else if i > k + 1 {
        assert q[i - 1].next == r[i].next;
      }
    }
  }

  /** Taking out the descriptor behind q[k]. */
  lemma Bypassed(head: Semd?, q: seq<Semd>, k: nat)
    requires NoDup(q) && k + 1 < |q| && head == q[0]
    requires q[k].next == After(q, k + 1)
    requires forall i {:trigger q[i].next} :: 0 <= i < |q| && i != k && i != k + 1 ==> q[i].next == After(q, i)
    ensures SemList(head, RemoveAt(q, k + 1))
  {
    RemovedElems(q, k + 1);
    var r := RemoveAt(q, k + 1);
    forall i {:trigger r[i]} | 0 <= i < |r| ensures r[i].next == After(r, i) {
      assert q[if i <= k then i else i + 1].next == r[i].next;
    }
  }

  ghost predicate NoCommon(q: seq<Semd>, free: seq<Semd>) {
    forall i {:trigger free[i]} :: 0 <= i < |free| ==> free[i] !in q
  }

  /** The first free descriptor moves into the list behind prec (src/asl.c:24-27). */
  method MoveIn(prec: Semd, freeHead: Semd, ghost head: Semd?, ghost q: seq<Semd>, ghost free: seq<Semd>, ghost k: nat)
    returns (newFree: Semd?)
    requires SemList(head, q) && SemList(freeHead, free) && NoCommon(q, free) && k < |q| && prec == q[k]
    modifies prec`next, freeHead`next
    ensures SemList(head, InsertAt(q, k + 1, freeHead)) && SemList(newFree, free[1..])
  {
    assert q[k].next == After(q, k) && free[0].next == After(free, 0);
    newFree := freeHead.next;
    freeHead.next := prec.next;
    prec.next := freeHead;
    Spliced(head, q, k, freeHead);
  }

  /** The descriptor behind prec becomes the first free one (src/asl.c:68-71). */
  method MoveOut(prec: Semd, freeHead: Semd?, ghost head: Semd?, ghost q: seq<Semd>, ghost free: seq<Semd>,
                 ghost k: nat)
    returns (tmp: Semd)
    requires SemList(head, q) && SemList(freeHead, free) && NoCommon(q, free) && k + 1 < |q| && prec == q[k]
    modifies prec`next, {q[k + 1]}`next
    ensures tmp == q[k + 1] && SemList(head, RemoveAt(q, k + 1)) && SemList(tmp, [tmp] + free)
  {
    assert q[k].next == After(q, k) && q[k + 1].next == After(q, k + 1);
    tmp := prec.next;
    prec.next := tmp.next;
    tmp.next := freeHead;
    Bypassed(head, q, k);
  }

  /** The descriptor tmp behind prec becomes the second free one (src/asl.c:95-97). */
  method MoveBehind(prec: Semd, tmp: Semd, freeHead: Semd, ghost head: Semd?, ghost q: seq<Semd>, ghost free: seq<Semd>,
                    ghost k: nat)
    requires SemList(head, q) && SemList(freeHead, free) && NoCommon(q, free)
    requires k + 1 < |q| && prec == q[k] && tmp == q[k + 1]
    modifies prec`next, tmp`next, freeHead`next
    ensures SemList(head, RemoveAt(q, k + 1)) && SemList(freeHead, InsertAt(free, 1, tmp))
  {
    assert q[k].next == After(q, k) && q[k + 1].next == After(q, k + 1) && free[0].next == After(free, 0);
    prec.next := tmp.next;
    tmp.next := freeHead.next;
    freeHead.next := tmp;
    Bypassed(head, q, k);
    Spliced(freeHead, free, 0, tmp);
  }

  /** The early-stopping ordered search finds s exactly when a full scan does. */
  lemma OrderedSearch(q: seq<Semd>, k: nat, s: nat)
    requires Ascending(q) && k <= |q|
    requires forall j {:trigger q[j].semAdd} :: 0 <= j < k ==> q[j].semAdd < s
    requires k < |q| ==> q[k].semAdd >= s
    ensures s in Addresses(q) <==> k < |q| && q[k].semAdd == s
  {
    if k < |q| {
      assert q[k] in q && Rising(q, k);
    }
  }

  /** An unordered scan that stops at k, at s or at the end. */
  lemma FullScan(q: seq<Semd>, k: nat, s: nat)
    requires k <= |q|
    requires forall j {:trigger q[j].semAdd} :: 0 <= j < k ==> q[j].semAdd != s
    requires k < |q| ==> q[k].semAdd == s
    ensures s in Addresses(q) <==> k < |q|
  {
    if k < |q| {
      assert q[k] in q;
    }
  }

  /** insertBlocked's search, which stops at the first address not below s, and the scans of the other operations,
      which look for s itself, find the same descriptor or none. */
  lemma SearchesAgree(q: seq<Semd>, i: nat, j: nat, s: nat)
    requires Ascending(q) && i <= |q| && j <= |q|
    requires forall k {:trigger q[k].semAdd} :: 0 <= k < i ==> q[k].semAdd < s
    requires i < |q| ==> q[i].semAdd >= s
    requires forall k {:trigger q[k].semAdd} :: 0 <= k < j ==> q[k].semAdd != s
    requires j < |q| ==> q[j].semAdd == s
    ensures i < |q| && q[i].semAdd == s <==> j < |q|
    ensures j < |q| ==> i == j
  {
    OrderedSearch(q, i, s);
    FullScan(q, j, s);
    assert i < |q| && i < j ==> q[i].semAdd != s;
  }

  lemma InsertedAscending(q: seq<Semd>, k: nat, d: Semd)
    requires Ascending(q) && k <= |q|
    requires forall j {:trigger q[j].semAdd} :: 0 <= j < k ==> q[j].semAdd < d.semAdd
    requires k < |q| ==> q[k].semAdd > d.semAdd
    ensures Ascending(InsertAt(q, k, d))
    ensures Addresses(InsertAt(q, k, d)) == Addresses(q) + {d.semAdd}
  {
    var r := InsertAt(q, k, d);
    forall i: nat | i < |r| ensures Rising(r, i) {
      if i < k {
        assert Rising(q, i) && q[i].semAdd < d.semAdd;
      } else if i == k {
        assert k < |q| ==> Rising(q, k);
      } else {
        assert Rising(q, i - 1);
      }
      forall j | i < j < |r| ensures r[i].semAdd < r[j].semAdd {
        assert r[j] == if j < k then q[j] else if j == k then d else q[j - 1];
      }
    }
    InsertedElems(q, k, d);
    assert forall x :: x in r <==> x in Elems(r);
  }

  lemma RemovedAscending(q: seq<Semd>, k: nat)
    requires Ascending(q) && NoDup(q) && k < |q|
    ensures Ascending(RemoveAt(q, k))
    ensures Addresses(RemoveAt(q, k)) == Addresses(q) - {q[k].semAdd}
  {
    var r := RemoveAt(q, k);
    forall i {:trigger r[i]} | 0 <= i < |r| ensures r[i] == q[if i < k then i else i + 1] {
    }
    forall i: nat | i < |r| ensures Rising(r, i) {
      assert Rising(q, if i < k then i else i + 1);
    }
    RemovedElems(q, k);
    forall d | d in q && d != q[k] ensures d.semAdd != q[k].semAdd && d in r {
      var i :| 0 <= i < |q| && q[i] == d;
      assert Rising(q, i) && Rising(q, k);
      assert d in Elems(r);
    }
    forall d | d in r ensures d in q && d != q[k] {
      assert d in Elems(r);
    }
  }

  lemma AddressesOfPrefix(a: seq<Semd>, d: Semd)
    requires Ascending(a + [d])
    ensures Ascending(a) && Addresses(a + [d]) == Addresses(a) + {d.semAdd} && d.semAdd !in Addresses(a)
  {
    var q := a + [d];
    forall i: nat | i < |a| ensures Rising(a, i) && a[i].semAdd < d.semAdd {
      assert Rising(q, i) && q[|a|] == d;
      assert forall j {:trigger a[j]} :: i < j < |a| ==> a[j] == q[j];
    }
    assert d in q && forall x :: x in a ==> x in q;
  }

  /** Ascending addresses are distinct. */
  lemma {:induction false} AddressCount(q: seq<Semd>)
    requires Ascending(q)
    ensures |Addresses(q)| == |q|
  {
    if q != [] {
      var a := q[..|q| - 1];
      assert q == a + [Last(q)];
      AddressesOfPrefix(a, Last(q));
      AddressCount(a);
    }
  }
}
