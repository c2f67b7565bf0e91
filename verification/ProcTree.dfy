/** The pointer form of the process forest: first-child and sibling links (src/pcb.c:172-235). */
module ProcTree {
  import opened Lists
  import opened ProcQueue
  import opened Forests

  /** q is the sibling list starting at head. */
  ghost predicate Siblings(head: Pcb?, q: seq<Pcb>)
    reads q`sib
  {
    && head == (if q == [] then null else q[0])
    && forall i {:trigger q[i].sib} :: 0 <= i < |q| ==> q[i].sib == Following(q, i)
  }

  /** Bypassing q[k] in the sibling list q. */
  lemma SiblingsCut(head: Pcb?, q: seq<Pcb>, k: nat)
    requires k < |q|
    requires if k == 0 then head == Following(q, k) else head == q[0] && q[k - 1].sib == Following(q, k)
    requires forall i {:trigger q[i].sib} :: 0 <= i < |q| && i != k && i != k - 1 ==> q[i].sib == Following(q, i)
    ensures Siblings(head, q[..k] + q[k + 1..])
  {
    var r := q[..k] + q[k + 1..];
    forall i {:trigger r[i]} | 0 <= i < |r| ensures r[i].sib == Following(r, i) {
      assert r[i].sib == q[if i < k then i else i + 1].sib;
    }
  }

  ghost predicate ParentLink(f: Forest, x: Pcb)
    reads x`parent, x`sib
  {
    x.parent == (if x in f.par then f.par[x] else null) && (x !in f.par ==> x.sib == null)
  }

  ghost predicate ChildLink(f: Forest, x: Pcb)
    requires x in f.kids
    reads x`child, f.kids[x]`sib
  {
    Siblings(x.child, f.kids[x])
  }

  /** The links of the processes in f.kids represent the forest f. */
  ghost predicate Links(f: Forest)
    reads f.kids.Keys`parent, f.kids.Keys`child, f.kids.Keys`sib
  {
    && (forall x {:trigger ParentLink(f, x)} :: x in f.kids ==> ParentLink(f, x))
    && (forall x {:trigger ChildLink(f, x)} :: x in f.kids ==> f.Owns(x) && ChildLink(f, x))
  }

  method InsertChild(prnt: Pcb, p: Pcb, ghost f: Forest)
    requires f.Matched() && Links(f)
    requires prnt in f.kids && p in f.kids && p !in f.par
    modifies p`sib, p`parent, prnt`child
    ensures f.Insert(prnt, p).Matched() && Links(f.Insert(prnt, p))
    ensures p.parent == prnt && prnt.child == p && (p != prnt ==> p.sib == old(prnt.child))
  {
    InsertMatched(f, prnt, p);
    ghost var g := f.Insert(prnt, p);
    assert ChildLink(f, prnt);
    p.sib := prnt.child;
    prnt.child := p;
    p.parent := prnt;
    forall x | x in g.kids ensures ParentLink(g, x) && g.Owns(x) && ChildLink(g, x) {
      assert old(ParentLink(f, x)) && old(ChildLink(f, x));
      RootUnlisted(f, p, x);
    }
  }

  /** What remains to be shown once p has been unlinked from the child list of prnt. */
  lemma Unlinked(f: Forest, p: Pcb, prnt: Pcb)
    requires f.Matched() && p in f.par && prnt == f.par[p] && prnt in f.kids
    requires p.parent == null && p.sib == null
    requires Siblings(prnt.child, Del(f.kids[prnt], p))
    requires forall x {:trigger ParentLink(f, x)} :: x in f.kids && x != p ==> ParentLink(f, x)
    requires forall x {:trigger ChildLink(f, x)} :: x in f.kids && x != prnt ==> ChildLink(f, x)
    ensures Links(f.Out(p))
  {
    OutMatched(f, p);
    var g := f.Out(p);
    forall x | x in g.kids ensures ParentLink(g, x) {
      assert x != p ==> ParentLink(f, x);
    }
    forall x | x in g.kids ensures g.Owns(x) && ChildLink(g, x) {
      assert x != prnt ==> ChildLink(f, x);
    }
  }

  method RemoveChild(p: Pcb, ghost f: Forest) returns (r: Pcb?)
    requires f.Matched() && Links(f) && p in f.kids
    modifies p`child, f.kids[p]`parent, f.kids[p]`sib
    ensures r == if f.kids[p] == [] then null else f.kids[p][0]
    ensures r == null ==> Links(f)
    ensures r != null ==> r in f.par && f.par[r] == p && Links(f.Out(r))
    ensures r == old(p.child) && (r != null ==> r.parent == null && r.sib == null && p.child == old(p.child.sib))
  {
    assert f.Owns(p) && ChildLink(f, p);
    ghost var q := f.kids[p];
    if p.child == null {
      return null;
    }
    var temp := p.child;
    assert q[0].sib == Following(q, 0);
    p.child := temp.sib;
    temp.parent := null;
    temp.sib := null;
    DelAt(q, 0);
    SiblingsCut(p.child, q, 0);
    forall x | x in f.kids && x != p ensures ChildLink(f, x) {
      assert f.Owns(x) && old(ChildLink(f, x));
    }
    forall x | x in f.kids && x != temp ensures ParentLink(f, x) {
      assert old(ParentLink(f, x));
    }
    Unlinked(f, temp, p);
    return temp;
  }

  /** The search among the siblings of p ends at its predecessor, never at NULL. */
  method OutChild(p: Pcb, ghost f: Forest) returns (r: Pcb?)
    requires f.Matched() && Links(f) && p in f.kids
    modifies f.kids.Keys`child, f.kids.Keys`parent, f.kids.Keys`sib
    ensures r == if p in f.par then p else null
    ensures Links(f.Out(p)) && p.parent == null && p.sib == null
  {
    assert ParentLink(f, p);
    if p.parent != null {
      var prnt := p.parent;
      ghost var k := ChildListed(f, p);
      ghost var q := f.kids[prnt];
      assert f.Owns(prnt) && ChildLink(f, prnt);
      if prnt.child == p {
        r := RemoveChild(prnt, f);
      } else {
        var tmp := prnt.child;
        ghost var i := 0;
        while tmp.sib != p
          invariant 0 <= i < k && tmp == q[i]
          decreases k - i
        {
          assert q[i].sib == Following(q, i);
          tmp := tmp.sib;
          i := i + 1;
        }
        assert q[i].sib == Following(q, i) && q[k].sib == Following(q, k);
        tmp.sib := p.sib;
        p.parent := null;
        p.sib := null;
        DelAt(q, k);
        SiblingsCut(prnt.child, q, k);
        forall x | x in f.kids && x != prnt ensures ChildLink(f, x) {
          assert f.Owns(x) && old(ChildLink(f, x));
        }
        forall x | x in f.kids && x != p ensures ParentLink(f, x) {
          assert old(ParentLink(f, x));
        }
        Unlinked(f, p, prnt);
        return p;
      }
    } else {
      return null;
    }
  }
}
