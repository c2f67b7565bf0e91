/** The processes that terminateProcess kills, and when they are the whole subtree (src/syscall.c:63-91). */
module Termination {
  import opened Lists
  import opened ProcQueue
  import opened Forests

  /** The child lists killed below p: those along the chain of first children, the deepest first. */
  ghost function KillList(f: Forest, p: Pcb): seq<Pcb>
    requires f.Wf() && p in f.kids
    decreases f.kids.Keys - f.Ancestors(p)
  {
    if f.kids[p] == [] then []
    else
      AboveChild(f, p, f.kids[p][0]);
      KillList(f, f.kids[p][0]) + f.kids[p]
  }

  /** All processes killed for the current process p, in order. */
  ghost function Victims(f: Forest, p: Pcb): seq<Pcb>
    requires f.Wf() && p in f.kids
  {
    KillList(f, p) + [p]
  }

  lemma {:induction false} KillListBelow(f: Forest, p: Pcb)
    requires f.Wf() && p in f.kids
    ensures NoDup(KillList(f, p)) && NoDup(Victims(f, p))
    ensures forall v :: v in KillList(f, p) ==> v in f.kids && f.Above(p, v) && v !in f.Ancestors(p)
    decreases f.kids.Keys - f.Ancestors(p)
  {
    NotOwnAncestor(f, p);
    if f.kids[p] != [] {
      var c := f.kids[p][0];
      assert f.Owns(p);
      AboveChild(f, p, c);
      KillListBelow(f, c);
      forall v | v in f.kids[p] ensures v in f.kids && f.Above(p, v) && v !in f.Ancestors(p) && v !in KillList(f, c) {
        AboveChild(f, p, v);
        NotOwnAncestor(f, v);
        BelowSibling(f, p, c, v);
      }
      forall v | v in KillList(f, c) ensures f.Above(p, v) && v !in f.Ancestors(p) {
        AboveTrans(f, p, c, v);
      }
      NoDupConcat(KillList(f, c), f.kids[p]);
    }
    NoDupConcat(KillList(f, p), [p]);
  }

  /** Processes die from the leaves up: whoever is killed is killed before its parent... */
  lemma {:induction false} ChildBeforeParent(f: Forest, p: Pcb, c: Pcb)
    requires f.Wf() && p in f.kids && c in KillList(f, p) && c in f.par && f.par[c] in KillList(f, p)
    ensures Before(KillList(f, p), c, f.par[c])
    decreases f.kids.Keys - f.Ancestors(p)
  {
    var first := f.kids[p][0];
    AboveChild(f, p, first);
    if c in KillList(f, first) {
      if f.par[c] in KillList(f, first) {
        ChildBeforeParent(f, first, c);
      }
    } else {
      AboveChild(f, p, c);
      KillListBelow(f, p);
      NotOwnAncestor(f, p);
    }
    BeforeConcat(KillList(f, first), f.kids[p], c, f.par[c]);
  }

  /** ... and siblings in the order of their list. */
  lemma {:induction false} SiblingsInOrder(f: Forest, p: Pcb, x: Pcb, a: Pcb, b: Pcb)
    requires f.Wf() && p in f.kids && x in f.kids && Before(f.kids[x], a, b) && a in KillList(f, p)
    ensures Before(KillList(f, p), a, b)
    decreases f.kids.Keys - f.Ancestors(p)
  {
    var first := f.kids[p][0];
    AboveChild(f, p, first);
    assert f.Owns(x) && f.Owns(p) && a in f.kids[x];
    if x != p {
      SiblingsInOrder(f, first, x, a, b);
    }
    BeforeConcat(KillList(f, first), f.kids[p], a, b);
  }

  /** p, its first child, the first child of that, and so on. */
  ghost function Spine(f: Forest, p: Pcb): set<Pcb>
    requires f.Wf() && p in f.kids
    decreases f.kids.Keys - f.Ancestors(p)
  {
    if f.kids[p] == [] then {p}
    else
      AboveChild(f, p, f.kids[p][0]);
      {p} + Spine(f, f.kids[p][0])
  }

  /** Exactly the children of the spine are killed below p. */
  lemma {:induction false} KilledIffParentOnSpine(f: Forest, p: Pcb, v: Pcb)
    requires f.Wf() && p in f.kids
    ensures v in KillList(f, p) <==> v in f.par && f.par[v] in Spine(f, p)
    decreases f.kids.Keys - f.Ancestors(p)
  {
    if f.kids[p] != [] {
      AboveChild(f, p, f.kids[p][0]);
      KilledIffParentOnSpine(f, f.kids[p][0], v);
    }
    assert f.Owns(p);
    if v in f.par { assert f.Listed(v); }
  }

  lemma {:induction false} SpineClosed(f: Forest, p: Pcb, x: Pcb)
    requires f.Wf() && p in f.kids && x in Spine(f, p)
    ensures x in f.kids
    ensures f.kids[x] != [] ==> f.kids[x][0] in Spine(f, p)
    ensures x == p || (x in f.par && f.Listed(x) && f.kids[f.par[x]][0] == x)
    decreases f.kids.Keys - f.Ancestors(p)
  {
    if f.kids[p] != [] {
      var c := f.kids[p][0];
      AboveChild(f, p, c);
      assert f.Listed(c);
      if x == p {
        assert c in Spine(f, c);
      } else {
        SpineClosed(f, c, x);
      }
    }
  }

  /** v is the first child of its parent. */
  ghost predicate First(f: Forest, v: Pcb)
    requires f.Matched() && v in f.par
  {
    assert f.Listed(v);
    f.kids[f.par[v]][0] == v
  }

  /** The children of a killed process are killed with it when it is a first child or p itself, else none is. */
  lemma KidsKilled(f: Forest, p: Pcb, v: Pcb, c: Pcb)
    requires f.Wf() && p in f.kids && v in Victims(f, p) && v in f.kids && c in f.kids[v]
    ensures v != p ==> v in f.par
    ensures c in Victims(f, p) <==> v == p || First(f, v)
  {
    AboveChild(f, v, c);
    KillListBelow(f, p);
    KilledIffParentOnSpine(f, p, v);
    KilledIffParentOnSpine(f, p, c);
    if v != p {
      AboveTrans(f, p, v, c);
      NotOwnAncestor(f, p);
      assert f.Listed(v);
      SpineClosed(f, p, f.par[v]);
    }
    if v in Spine(f, p) {
      SpineClosed(f, p, v);
    }
  }

  /** No killed process other than a first child has children. */
  ghost predicate LaterSiblingsChildless(f: Forest, p: Pcb)
    requires f.Wf() && p in f.kids
  {
    KillListBelow(f, p);
    forall v :: v in KillList(f, p) && v in f.par && !First(f, v) ==> f.kids[v] == []
  }

  /** terminateProcess kills the whole subtree its comment promises exactly when no killed later sibling
      has children; it never kills anything outside the subtree. */
  lemma WholeSubtree(f: Forest, p: Pcb)
    requires f.Wf() && p in f.kids
    ensures Elems(Victims(f, p)) <= f.Subtree(p)
    ensures Elems(Victims(f, p)) == f.Subtree(p) <==> LaterSiblingsChildless(f, p)
  {
    KillListBelow(f, p);
    if LaterSiblingsChildless(f, p) {
      forall x | x in f.Subtree(p) ensures x in Victims(f, p) {
        if x != p {
          var n: nat :| n > 0 && Up(f.par, x, n) == p;
          BelowIsKilled(f, p, x, n);
        }
      }
    } else {
      var v :| v in KillList(f, p) && v in f.par && !First(f, v) && f.kids[v] != [];
      var c := f.kids[v][0];
      NotOwnAncestor(f, p);
      KidsKilled(f, p, v, c);
      AboveChild(f, v, c);
      AboveTrans(f, p, v, c);
      assert c in f.Subtree(p) && c !in Elems(Victims(f, p));
    }
  }

  lemma {:induction false} BelowIsKilled(f: Forest, p: Pcb, x: Pcb, n: nat)
    requires f.Wf() && p in f.kids && LaterSiblingsChildless(f, p) && x in f.kids
    requires Up(f.par, x, n) == p
    ensures x in Victims(f, p)
  {
    if n > 0 {
      assert f.Listed(x);
      var v := f.par[x];
      BelowIsKilled(f, p, v, n - 1);
      KidsKilled(f, p, v, x);
    }
  }
}
