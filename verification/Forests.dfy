/** The process forest as a value: child lists, parents and ancestry (src/pcb.c:172-235). */
module Forests {
  import opened Lists
  import opened ProcQueue

  datatype Forest = Forest(kids: map<Pcb, seq<Pcb>>, par: map<Pcb, Pcb>) {

    /** The child list of x has no repetitions, and its members have x as their parent. */
    ghost predicate Owns(x: Pcb)
      requires x in kids
    {
      NoDup(kids[x]) && forall c :: c in kids[x] ==> c in kids && c in par && par[c] == x
    }

    ghost predicate Listed(c: Pcb)
      requires c in par
    {
      c in kids && par[c] in kids && c in kids[par[c]]
    }

    /** A process has the parent x exactly when it occurs, once, in the child list of x. */
    ghost predicate Matched() {
      && (forall x {:trigger Owns(x)} :: x in kids ==> Owns(x))
      && (forall c {:trigger Listed(c)} :: c in par ==> Listed(c))
    }

    /** No process is its own ancestor. */
    ghost predicate Acyclic() {
      forall x, n: nat :: x in par && n > 0 ==> Up(par, x, n) != x
    }

    ghost predicate Wf() {
      Matched() && Acyclic()
    }

    /** a is a proper ancestor of x. */
    ghost predicate Above(a: Pcb, x: Pcb) {
      exists n: nat :: n > 0 && Up(par, x, n) == a
    }

    ghost function Ancestors(x: Pcb): set<Pcb> {
      set a | a in kids && Above(a, x)
    }

    /** p and everything below it. */
    ghost function Subtree(p: Pcb): set<Pcb> {
      set x | x in kids && (x == p || Above(p, x))
    }

    ghost predicate Isolated(p: Pcb) {
      p !in par && p in kids && kids[p] == []
    }

    /** insertChild: p becomes the first child of x. */
    ghost function Insert(x: Pcb, p: Pcb): Forest
      requires x in kids
    {
      Forest(kids[x := [p] + kids[x]], par[p := x])
    }

    /** outChild: p leaves the child list it is in, and keeps its own children. */
    ghost function Out(p: Pcb): Forest {
      if p in par && par[p] in kids then Forest(kids[par[p] := Del(kids[par[p]], p)], par - {p}) else this
    }
  }

  /** The n-th ancestor of x, x itself for n == 0; null beyond the root. */
  ghost function Up(par: map<Pcb, Pcb>, x: Pcb?, n: nat): Pcb? {
    if x == null then null
    else if n == 0 then x
    else if x in par then Up(par, par[x], n - 1)
    else null
  }

  lemma {:induction false} UpAdd(par: map<Pcb, Pcb>, x: Pcb?, m: nat, n: nat)
    ensures Up(par, x, m + n) == Up(par, Up(par, x, m), n)
  {
    if x != null && m > 0 && x in par {
      UpAdd(par, par[x], m - 1, n);
    }
  }

  // ---------- insertChild ----------

  lemma RootUnlisted(f: Forest, p: Pcb, x: Pcb)
    requires f.Matched() && x in f.kids && p !in f.par
    ensures p !in f.kids[x] && NoDup(f.kids[x])
  {
    assert f.Owns(x);
  }

  lemma InsertMatched(f: Forest, x: Pcb, p: Pcb)
    requires f.Matched() && x in f.kids && p in f.kids && p !in f.par
    ensures f.Insert(x, p).Matched()
    ensures f.Insert(x, p).kids.Keys == f.kids.Keys
  {
    var g := f.Insert(x, p);
    forall y | y in g.kids ensures g.Owns(y) {
      assert f.Owns(y);
    }
    forall c | c in g.par ensures g.Listed(c) {
      if c != p { assert f.Listed(c); }
    }
  }

  /** A chain that never meets p is the same with and without an edge leaving p. */
  lemma {:induction false} UpAvoids(par: map<Pcb, Pcb>, x: Pcb?, p: Pcb, q: Pcb, n: nat)
    requires forall i: nat :: i < n ==> Up(par, x, i) != p
    ensures Up(par[p := q], x, n) == Up(par, x, n)
  {
    if x != null && n > 0 && x in par {
      assert Up(par, x, 0) == x;
      forall i: nat | i < n - 1 ensures Up(par, par[x], i) != p {
        assert Up(par, x, i + 1) == Up(par, par[x], i);
      }
      UpAvoids(par, par[x], p, q, n - 1);
    } else if x != null && n > 0 {
      assert Up(par, x, 0) == x;
    }
  }

  /** The first step at which a chain meets p. */
  lemma FirstMeeting(par: map<Pcb, Pcb>, x: Pcb?, p: Pcb, n: nat) returns (k: nat)
    requires Up(par, x, n) == p
    ensures k <= n && Up(par, x, k) == p
    ensures forall i: nat :: i < k ==> Up(par, x, i) != p
  {
    k := 0;
    while Up(par, x, k) != p
      invariant k <= n
      invariant forall i: nat :: i < k ==> Up(par, x, i) != p
      decreases n - k
    {
      k := k + 1;
    }
  }

  /** insertChild keeps the forest acyclic exactly when p is neither x nor an ancestor of x. */
  lemma InsertAcyclic(f: Forest, x: Pcb, p: Pcb)
    requires f.Wf() && x in f.kids && p in f.kids && p !in f.par
    ensures f.Insert(x, p).Acyclic() <==> p != x && !f.Above(p, x)
  {
    var par' := f.par[p := x];
    if p != x && !f.Above(p, x) {
      forall y, n: nat | y in par' && n > 0 ensures Up(par', y, n) != y {
        InsertNoCycle(f, x, p, y, n);
      }
    } else {
      var n: nat :| Up(f.par, x, n) == p by { assert Up(f.par, x, 0) == x; }
      var k := FirstMeeting(f.par, x, p, n);
      UpAvoids(f.par, x, p, x, k);
      assert Up(par', p, k + 1) == Up(par', x, k) == p;
    }
  }

  lemma InsertNoCycle(f: Forest, x: Pcb, p: Pcb, y: Pcb, n: nat)
    requires f.Acyclic() && p != x && !f.Above(p, x) && n > 0
    ensures Up(f.par[p := x], y, n) != y
  {
    var par' := f.par[p := x];
    assert Up(f.par, x, 0) == x;
    if forall i: nat :: i < n ==> Up(f.par, y, i) != p {
      UpAvoids(f.par, y, p, x, n);
    } else {
      var i: nat :| i < n && Up(f.par, y, i) == p;
      var k := FirstMeeting(f.par, y, p, i);
      UpAvoids(f.par, y, p, x, k);
      UpAdd(par', y, k, n);
      UpAdd(par', y, n, k);
      UpAvoids(f.par, x, p, x, n - 1);
      assert Up(par', p, n) == Up(par', x, n - 1);
    }
  }

  // ---------- outChild, removeChild ----------

  lemma ChildListed(f: Forest, p: Pcb) returns (k: nat)
    requires f.Matched() && p in f.par
    ensures f.par[p] in f.kids && NoDup(f.kids[f.par[p]])
    ensures k < |f.kids[f.par[p]]| && f.kids[f.par[p]][k] == p
  {
    assert f.Listed(p) && f.Owns(f.par[p]);
    k :| 0 <= k < |f.kids[f.par[p]]| && f.kids[f.par[p]][k] == p;
  }

  lemma OutMatched(f: Forest, p: Pcb)
    requires f.Matched()
    ensures f.Out(p).Matched()
    ensures f.Out(p).kids.Keys == f.kids.Keys && f.Out(p).par == f.par - {p}
  {
    var g := f.Out(p);
    if p in f.par {
      var k := ChildListed(f, p);
      DelMembers(f.kids[f.par[p]], p);
      forall y | y in g.kids ensures g.Owns(y) {
        assert f.Owns(y);
        assert g.kids[y] != f.kids[y] ==> Elems(g.kids[y]) == Elems(f.kids[y]) - {p};
        assert forall c :: c in g.kids[y] ==> c in Elems(g.kids[y]);
      }
      forall c | c in g.par ensures g.Listed(c) {
        assert f.Listed(c);
        assert c in Elems(f.kids[f.par[c]]) - {p};
      }
    } else {
      assert f.par - {p} == f.par;
    }
  }

  lemma {:induction false} UpSub(par: map<Pcb, Pcb>, gone: set<Pcb>, x: Pcb?, n: nat)
    ensures Up(par - gone, x, n) == null || Up(par - gone, x, n) == Up(par, x, n)
  {
    if x != null && n > 0 && x in par {
      UpSub(par, gone, par[x], n - 1);
    }
  }

  lemma OutWf(f: Forest, p: Pcb)
    requires f.Wf()
    ensures f.Out(p).Wf()
  {
    OutMatched(f, p);
    var g := f.Out(p);
    forall x, n: nat | x in g.par && n > 0 ensures Up(g.par, x, n) != x {
      UpSub(f.par, {p}, x, n);
    }
  }

  /** outChild undoes insertChild. */
  lemma InsertThenOut(f: Forest, x: Pcb, p: Pcb)
    requires f.Matched() && x in f.kids && p in f.kids && p !in f.par
    ensures f.Insert(x, p).Out(p) == f
  {
    RootUnlisted(f, p, x);
    DelFront(f.kids[x], p);
    assert f.Insert(x, p).kids[x := f.kids[x]] == f.kids;
    assert f.Insert(x, p).par - {p} == f.par;
  }

  /** insertChild undoes outChild exactly when p was the first child: it always inserts in front. */
  lemma OutThenInsert(f: Forest, p: Pcb)
    requires f.Matched() && p in f.par
    ensures f.Listed(p)
    ensures f.Out(p).Insert(f.par[p], p) == f <==> f.kids[f.par[p]][0] == p
  {
    var x := f.par[p];
    var k := ChildListed(f, p);
    var g := f.Out(p).Insert(x, p);
    assert g.kids[x][0] == p;
    if f.kids[x][0] == p {
      DelHead(f.kids[x]);
      assert g.kids[x] == f.kids[x];
      assert g.kids == f.kids;
      assert g.par == f.par;
    }
  }

  // ---------- ancestry ----------

  lemma NotOwnAncestor(f: Forest, p: Pcb)
    requires f.Acyclic()
    ensures !f.Above(p, p)
  {
    forall n: nat | n > 0 ensures Up(f.par, p, n) != p {
    }
  }

  /** The ancestors of a child are those of its parent and the parent: a measure that bounds every descent. */
  lemma AboveChild(f: Forest, p: Pcb, c: Pcb)
    requires f.Wf() && p in f.kids && c in f.kids[p]
    ensures c in f.kids && c in f.par && f.par[c] == p && f.Above(p, c)
    ensures f.Ancestors(c) == f.Ancestors(p) + {p}
    ensures f.kids.Keys - f.Ancestors(c) < f.kids.Keys - f.Ancestors(p)
  {
    assert f.Owns(p);
    assert Up(f.par, c, 1) == Up(f.par, p, 0) == p;
    NotOwnAncestor(f, p);
    forall a | a in f.kids ensures a in f.Ancestors(c) <==> a in f.Ancestors(p) + {p} {
      if f.Above(a, p) {
        var n: nat :| n > 0 && Up(f.par, p, n) == a;
        assert Up(f.par, c, n + 1) == a;
      }
      if f.Above(a, c) {
        var n: nat :| n > 0 && Up(f.par, c, n) == a;
        assert Up(f.par, p, n - 1) == a;
      }
    }
  }

  lemma AboveTrans(f: Forest, a: Pcb, b: Pcb, x: Pcb)
    requires f.Above(a, b) && f.Above(b, x)
    ensures f.Above(a, x)
  {
    var m: nat :| m > 0 && Up(f.par, b, m) == a;
    var n: nat :| n > 0 && Up(f.par, x, n) == b;
    UpAdd(f.par, x, n, m);
    assert Up(f.par, x, n + m) == a;
  }

  lemma BelowSibling(f: Forest, p: Pcb, c: Pcb, v: Pcb)
    requires f.Wf() && p in f.kids && c in f.kids[p] && v in f.kids[p]
    ensures !f.Above(c, v)
  {
    AboveChild(f, p, v);
    AboveChild(f, p, c);
    NotOwnAncestor(f, c);
    assert c !in f.Ancestors(v);
  }
}
