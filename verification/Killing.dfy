/** When terminateProcess runs to its end, and what it leaves behind (src/syscall.c:47-91). */
module Killing {
  import opened Lists
  import opened ProcQueue
  import opened Forests
  import opened Termination
  import opened SystemState
  import opened Operations

  /** q without the members of vs, deleted one after the other. */
  ghost function DelAll(q: seq<Pcb>, vs: seq<Pcb>): seq<Pcb> {
    if vs == [] then q else Del(DelAll(q, vs[..|vs| - 1]), Last(vs))
  }

  ghost function Reverse(vs: seq<Pcb>): seq<Pcb> {
    if vs == [] then [] else [Last(vs)] + Reverse(vs[..|vs| - 1])
  }

  lemma {:induction false} DelAllElems(q: seq<Pcb>, vs: seq<Pcb>)
    requires NoDup(q)
    ensures NoDup(DelAll(q, vs)) && Elems(DelAll(q, vs)) == Elems(q) - Elems(vs)
  {
    if vs != [] {
      var a := vs[..|vs| - 1];
      assert vs == a + [Last(vs)];
      DelAllElems(q, a);
      DelMembers(DelAll(q, a), Last(vs));
    }
  }

  /** Deleting other members leaves the tail in its place. */
  lemma {:induction false} DelAllLast(q: seq<Pcb>, vs: seq<Pcb>)
    requires NoDup(q) && q != [] && Last(q) !in vs
    ensures DelAll(q, vs) != [] && Last(DelAll(q, vs)) == Last(q)
  {
    if vs != [] {
      var a := vs[..|vs| - 1];
      DelAllLast(q, a);
      DelAllElems(q, a);
      var r, v := DelAll(q, a), Last(vs);
      if v in r {
        var k :| 0 <= k < |r| && r[k] == v;
        DelAt(r, k);
      }
    }
  }

  /** Deleting another member does not move a process back. */
  lemma DelIndex(q: seq<Pcb>, v: Pcb, k: nat) returns (m: nat)
    requires NoDup(q) && k < |q| && q[k] != v
    ensures m <= k && m < |Del(q, v)| && Del(q, v)[m] == q[k]
  {
    m := k;
    if v in q {
      var j :| 0 <= j < |q| && q[j] == v;
      DelAt(q, j);
      m := if j < k then k - 1 else k;
    }
  }

  lemma {:induction false} DelAllIndex(q: seq<Pcb>, vs: seq<Pcb>, k: nat) returns (m: nat)
    requires NoDup(q) && k < |q| && q[k] !in vs
    ensures m <= k && m < |DelAll(q, vs)| && DelAll(q, vs)[m] == q[k]
  {
    m := k;
    if vs != [] {
      var a := vs[..|vs| - 1];
      m := DelAllIndex(q, a, k);
      DelAllElems(q, a);
      m := DelIndex(DelAll(q, a), Last(vs), m);
    }
  }

  lemma {:induction false} ReverseElems(vs: seq<Pcb>)
    ensures Elems(Reverse(vs)) == Elems(vs) && |Reverse(vs)| == |vs|
  {
    if vs != [] {
      var a := vs[..|vs| - 1];
      assert vs == a + [Last(vs)];
      ReverseElems(a);
      assert Elems(vs) == Elems(a) + {Last(vs)};
      assert Elems(Reverse(vs)) == {Last(vs)} + Elems(Reverse(a));
    }
  }

  lemma {:induction false} ReverseAt(vs: seq<Pcb>, i: nat)
    requires i < |vs|
    ensures |Reverse(vs)| == |vs| && Reverse(vs)[i] == vs[|vs| - 1 - i]
  {
    ReverseElems(vs);
    if i > 0 {
      ReverseAt(vs[..|vs| - 1], i - 1);
    }
  }

  /** Every victim is ready, and none but the last one is the tail of the ready queue. */
  ghost predicate Killable(ready: seq<Pcb>, vs: seq<Pcb>) {
    && (forall v :: v in vs ==> v in ready)
    && (vs != [] && ready != [] ==> Last(ready) !in vs[..|vs| - 1])
  }

  lemma KillableStep(ready: seq<Pcb>, a: seq<Pcb>, v: Pcb)
    ensures Killable(ready, a + [v]) <==> Killable(ready, a) && v in ready && ready != [] && Last(ready) !in a
    ensures Killable(ready, a) && a != [] && ready != [] && Last(ready) in a ==> Last(a) == Last(ready)
  {
    var vs := a + [v];
    assert vs[..|vs| - 1] == a && Last(vs) == v && v in vs;
    assert forall x :: x in a ==> x in vs;
    if a != [] {
      assert a == a[..|a| - 1] + [Last(a)];
      assert Last(a) in a;
    }
  }

  /** What killing vs leaves of the ready queue when it runs to its end. */
  ghost function ReadyAfter(ready: seq<Pcb>, vs: seq<Pcb>): seq<Pcb> {
    if vs != [] && ready != [] && Last(vs) == Last(ready) then [] else DelAll(ready, vs)
  }

  lemma ReadyAfterStep(ready: seq<Pcb>, a: seq<Pcb>, v: Pcb)
    requires NoDup(ready) && ready != [] && Last(ready) !in a && v !in a
    ensures ReadyAfter(ready, a) != [] && (v in ReadyAfter(ready, a) <==> v in ready)
    ensures v in ready ==> OutQ(ReadyAfter(ready, a), v) == ReadyAfter(ready, a + [v])
  {
    assert a != [] ==> Last(a) in a;
    DelAllLast(ready, a);
    DelAllElems(ready, a);
    assert v in Elems(DelAll(ready, a)) <==> v in Elems(ready);
    assert (a + [v])[..|a|] == a;
  }

  /** Once the tail of the ready queue has been killed nothing is ready. */
  lemma ReadyExhausted(ready: seq<Pcb>, a: seq<Pcb>)
    requires Killable(ready, a) && (ready == [] || Last(ready) in a)
    ensures ReadyAfter(ready, a) == []
  {
    if a != [] {
      assert a[0] in a;
      KillableStep(ready, a, Last(a));
    }
  }

  /** The exact outcome of killing vs in order. */
  lemma {:induction false} KillAllExact(st: Sys, vs: seq<Pcb>)
    requires NoDup(st.ready) && st.status == Running && NoDup(vs)
    ensures KillAll(st, vs).status == Running <==> Killable(st.ready, vs)
    ensures Killable(st.ready, vs) ==>
              && KillAll(st, vs).free == Reverse(vs) + st.free
              && KillAll(st, vs).count == st.count - |vs|
              && KillAll(st, vs).ready == ReadyAfter(st.ready, vs)
  {
    if vs != [] {
      var a, v := vs[..|vs| - 1], Last(vs);
      LastOnce(vs);
      KillAllExact(st, a);
      KillableStep(st.ready, a, v);
      if Killable(st.ready, a) {
        if st.ready != [] && Last(st.ready) !in a {
          ReadyAfterStep(st.ready, a, v);
          assert Reverse(vs) + st.free == [v] + (Reverse(a) + st.free);
        } else {
          ReadyExhausted(st.ready, a);
        }
      }
    }
  }

  /** At some victim the ready queue is empty, the victims before it having been killed. */
  ghost predicate RunsDry(ready: seq<Pcb>, vs: seq<Pcb>) {
    exists i: nat {:trigger vs[..i]} :: i < |vs| && DryAt(ready, vs[..i])
  }

  ghost predicate DryAt(ready: seq<Pcb>, a: seq<Pcb>) {
    Killable(ready, a) && (ready == [] || Last(ready) in a)
  }

  lemma RunsDryStep(ready: seq<Pcb>, a: seq<Pcb>, v: Pcb)
    ensures RunsDry(ready, a + [v]) <==> RunsDry(ready, a) || DryAt(ready, a)
  {
    var vs := a + [v];
    assert vs[..|a|] == a;
    assert forall i: nat :: i < |a| ==> vs[..i] == a[..i];
    if RunsDry(ready, a) {
      var i: nat :| i < |a| && DryAt(ready, a[..i]);
      assert DryAt(ready, vs[..i]);
    }
  }

  /** How killing vs in order ends: a read through NULL when the ready queue has run dry before some victim, else a
      PANIC when it cannot be completed. */
  lemma {:induction false} KillAllStop(st: Sys, vs: seq<Pcb>)
    requires NoDup(st.ready) && st.status == Running && NoDup(vs)
    ensures KillAll(st, vs).status == if Killable(st.ready, vs) then Running
                                      else if RunsDry(st.ready, vs) then Faulted else Panicked
  {
    KillAllExact(st, vs);
    if vs != [] {
      var a, v := vs[..|vs| - 1], Last(vs);
      LastOnce(vs);
      KillAllStop(st, a);
      KillAllExact(st, a);
      KillableStep(st.ready, a, v);
      RunsDryStep(st.ready, a, v);
      if Killable(st.ready, a) {
        if DryAt(st.ready, a) {
          ReadyExhausted(st.ready, a);
        } else {
          ReadyAfterStep(st.ready, a, v);
          NeverDry(st.ready, a);
        }
      }
    }
  }

  /** When it stops, exactly the victims before some vs[i] have been killed, and vs[i] has left its parent only. */
  lemma {:induction false} KillAllPartial(st: Sys, vs: seq<Pcb>) returns (i: nat)
    requires NoDup(st.ready) && st.status == Running && NoDup(vs) && !Killable(st.ready, vs)
    ensures i < |vs| && Killable(st.ready, vs[..i]) && !Killable(st.ready, vs[..i + 1])
    ensures var t := KillAll(st, vs);
            && t.free == Reverse(vs[..i]) + st.free && t.ready == ReadyAfter(st.ready, vs[..i])
            && t.count == st.count - i && t.forest == KillAll(st, vs[..i]).forest.Out(vs[i])
  {
    var a := vs[..|vs| - 1];
    LastOnce(vs);
    if Killable(st.ready, a) {
      i := |a|;
      assert vs[..i + 1] == vs;
      StopsAtLast(st, vs);
    } else {
      i := KillAllPartial(st, a);
      assert vs[..i] == a[..i] && vs[..i + 1] == a[..i + 1];
      KillAllExact(st, a);
    }
  }

  lemma StopsAtLast(st: Sys, vs: seq<Pcb>)
    requires NoDup(st.ready) && st.status == Running && NoDup(vs) && vs != []
    requires Killable(st.ready, vs[..|vs| - 1]) && !Killable(st.ready, vs)
    ensures var a, t := vs[..|vs| - 1], KillAll(st, vs);
            && t.free == Reverse(a) + st.free && t.ready == ReadyAfter(st.ready, a)
            && t.count == st.count - |a| && t.forest == KillAll(st, a).forest.Out(Last(vs))
  {
    LastOnce(vs);
    KillAllExact(st, vs[..|vs| - 1]);
    KillAllExact(st, vs);
  }

  /** Victims that can all be killed never find the ready queue dry. */
  lemma NeverDry(ready: seq<Pcb>, vs: seq<Pcb>)
    requires Killable(ready, vs)
    ensures !RunsDry(ready, vs)
  {
    forall i: nat | i < |vs| ensures !DryAt(ready, vs[..i]) {
      assert vs[i] in vs;
      assert forall x :: x in vs[..i] ==> x in vs[..|vs| - 1];
    }
  }

  lemma {:induction false} KillAllBlocked(st: Sys, vs: seq<Pcb>)
    ensures KillAll(st, vs).blocked == st.blocked && KillAll(st, vs).current == st.current
  {
    if vs != [] {
      KillAllBlocked(st, vs[..|vs| - 1]);
    }
  }

  // ---------- what the victims leave of the forest ----------

  /** g is f without the parents of the processes in gone. */
  ghost predicate Orphaned(f: Forest, g: Forest, gone: set<Pcb>) {
    g.Matched() && g.kids.Keys == f.kids.Keys && g.par == f.par - gone
  }

  lemma OrphanOne(f: Forest, g: Forest, gone: set<Pcb>, v: Pcb)
    requires Orphaned(f, g, gone)
    ensures Orphaned(f, g.Out(v), gone + {v})
  {
    OutMatched(g, v);
    assert (f.par - gone) - {v} == f.par - (gone + {v});
  }

  lemma KillForest(st: Sys, v: Pcb)
    ensures Kill(st, v).status == Running ==> st.status == Running && Kill(st, v).forest == st.forest.Out(v)
  {
  }

  lemma {:induction false} KillAllForest(st: Sys, vs: seq<Pcb>)
    requires st.forest.Matched() && KillAll(st, vs).status == Running
    ensures Orphaned(st.forest, KillAll(st, vs).forest, Elems(vs))
  {
    if vs != [] {
      var a, v := vs[..|vs| - 1], Last(vs);
      KillForest(KillAll(st, a), v);
      KillAllForest(st, a);
      OrphanOne(st.forest, KillAll(st, a).forest, Elems(a), v);
      assert vs == a + [v] && Elems(vs) == Elems(a) + {v};
    } else {
      assert st.forest.par - Elems(vs) == st.forest.par;
    }
  }

  /** The children a process keeps are those that were not killed. */
  lemma KeptChildren(f: Forest, g: Forest, gone: set<Pcb>, x: Pcb)
    requires f.Matched() && Orphaned(f, g, gone) && x in f.kids
    ensures Elems(g.kids[x]) == Elems(f.kids[x]) - gone
    ensures g.kids[x] == [] <==> Elems(f.kids[x]) <= gone
  {
    assert f.Owns(x) && g.Owns(x);
    forall c | c in f.kids[x] && c !in gone ensures c in g.kids[x] {
      assert c in g.par && g.par[c] == x && g.Listed(c);
    }
    forall c | c in g.kids[x] ensures c in f.kids[x] && c !in gone {
      assert c in g.par && c in f.par && f.par[c] == x && f.Listed(c);
    }
    EmptyElems(g.kids[x]);
  }

  /** A victim has no children left exactly when it had none, or was a first child or p itself. */
  lemma VictimIsolated(f: Forest, g: Forest, p: Pcb, v: Pcb)
    requires f.Wf() && p in f.kids && v in Victims(f, p) && Orphaned(f, g, Elems(Victims(f, p)))
    ensures v in f.kids && (v != p ==> v in f.par)
    ensures g.Isolated(v) <==> v == p || First(f, v) || f.kids[v] == []
  {
    KillListBelow(f, p);
    KilledIffParentOnSpine(f, p, v);
    KeptChildren(f, g, Elems(Victims(f, p)), v);
    forall d | d in f.kids[v] ensures d in Victims(f, p) <==> v == p || First(f, v) {
      KidsKilled(f, p, v, d);
    }
    EmptyElems(f.kids[v]);
  }

  lemma VictimsIsolated(f: Forest, g: Forest, p: Pcb)
    requires f.Wf() && p in f.kids && Orphaned(f, g, Elems(Victims(f, p)))
    ensures (forall v :: v in Victims(f, p) ==> g.Isolated(v)) <==> LaterSiblingsChildless(f, p)
  {
    KillListBelow(f, p);
    NotOwnAncestor(f, p);
    forall v | v in Victims(f, p) ensures v in f.kids && (v != p ==> v in f.par)
      ensures g.Isolated(v) <==> v == p || First(f, v) || f.kids[v] == []
    {
      VictimIsolated(f, g, p, v);
    }
    assert forall v :: v in KillList(f, p) ==> v in Victims(f, p) && v != p;
    assert forall v :: v in Victims(f, p) ==> v == p || v in KillList(f, p);
  }

  /** terminateProcess runs to its end exactly when every victim is ready and none but the current process,
      which dies last, is the tail of the ready queue; it then frees the victims, each once, and nothing else. */
  lemma TerminateExact(st: Sys)
    requires st.Sound() && st.current != null && Enabled(st, TerminateProcess)
    ensures var vs := Victims(st.forest, st.current);
            var t := Next(st, TerminateProcess);
            && NoDup(vs)
            && (t.status == Running <==> Killable(st.ready, vs))
            && (t.status == Running ==>
                  && t.free == Reverse(vs) + st.free && Elems(t.free) == Elems(vs) + Elems(st.free)
                  && t.ready == ReadyAfter(st.ready, vs)
                  && t.count == st.count - |vs|
                  && t.forest.par == st.forest.par - Elems(vs))
  {
    var vs := Victims(st.forest, st.current);
    KillListBelow(st.forest, st.current);
    KillAllExact(st, vs);
    if Killable(st.ready, vs) {
      KillAllForest(st, vs);
      ReverseElems(vs);
      assert Elems(Reverse(vs) + st.free) == Elems(Reverse(vs)) + Elems(st.free);
    }
  }

  /** A running process is not on the ready queue, so its terminateProcess never runs to its end: it reads through
      NULL when the ready queue runs dry, and panics otherwise. */
  lemma RunningCannotTerminate(st: Sys)
    requires st.Sound() && st.current != null && Enabled(st, TerminateProcess) && st.Detached(st.current)
    ensures Next(st, TerminateProcess).status ==
              if RunsDry(st.ready, Victims(st.forest, st.current)) then Faulted else Panicked
  {
    KillListBelow(st.forest, st.current);
    KillAllStop(st, Victims(st.forest, st.current));
    assert st.current in Victims(st.forest, st.current);
  }

  lemma ReadyAfterElems(ready: seq<Pcb>, vs: seq<Pcb>)
    requires NoDup(ready) && ready != [] && vs != []
    ensures Elems(ReadyAfter(ready, vs)) == if Last(vs) == Last(ready) then {} else Elems(ready) - Elems(vs)
  {
    DelAllElems(ready, vs);
  }

  /** A completed terminateProcess takes only its victims off the ready queue exactly when the current process is not
      the tail of that queue, or no other process is left on it; otherwise all others that were ready are lost. */
  lemma TerminateReadyExact(st: Sys)
    requires st.Sound() && st.current != null && Enabled(st, TerminateProcess)
    requires Next(st, TerminateProcess).status == Running
    ensures var vs, t := Victims(st.forest, st.current), Next(st, TerminateProcess);
            && st.ready != []
            && (st.current == Last(st.ready) ==> t.ready == [])
            && (Elems(t.ready) == Elems(st.ready) - Elems(vs) <==>
                  st.current != Last(st.ready) || Elems(st.ready) <= Elems(vs))
            && Elems(st.ready) - Elems(vs) - Elems(t.ready) ==
                 if st.current == Last(st.ready) then Elems(st.ready) - Elems(vs) else {}
  {
    var vs := Victims(st.forest, st.current);
    TerminateExact(st);
    assert st.current in vs && Last(vs) == st.current;
    ReadyAfterElems(st.ready, vs);
    NothingLeft(Elems(st.ready), Elems(vs));
    assert Elems<Pcb>([]) == {};
  }

  /** What a completed terminateProcess does to the process at index k of the ready queue: it moves no further back, or
      it is killed, or the whole queue is gone. */
  lemma TerminateWaiting(st: Sys, k: nat) returns (m: nat)
    requires st.Sound() && st.current != null && Enabled(st, TerminateProcess) && k < |st.ready|
    requires Next(st, TerminateProcess).status == Running
    ensures var t := Next(st, TerminateProcess);
            || (m <= k && m < |t.ready| && t.ready[m] == st.ready[k])
            || (st.ready[k] !in t.ready && (st.ready[k] in t.free || t.ready == []))
  {
    var vs, t, p := Victims(st.forest, st.current), Next(st, TerminateProcess), st.ready[k];
    TerminateExact(st);
    m := 0;
    if t.ready != [] {
      assert t.ready == DelAll(st.ready, vs);
      if p in vs {
        assert p in Elems(t.free);
        DelAllElems(st.ready, vs);
        assert p !in Elems(t.ready);
      } else {
        m := DelAllIndex(st.ready, vs, k);
      }
    }
  }

  /** With every victim ready, the pool stays clean exactly when the whole subtree was killed. */
  lemma TerminateClean(st: Sys)
    requires st.Sound() && st.Clean() && st.current != null && Enabled(st, TerminateProcess)
    requires Next(st, TerminateProcess).status == Running
    ensures Next(st, TerminateProcess).Clean() <==> LaterSiblingsChildless(st.forest, st.current)
    ensures Next(st, TerminateProcess).Clean() <==>
              Elems(Victims(st.forest, st.current)) == st.forest.Subtree(st.current)
  {
    var f, p := st.forest, st.current;
    var vs, t := Victims(f, p), Next(st, TerminateProcess);
    TerminateExact(st);
    KillAllForest(st, vs);
    WholeSubtree(f, p);
    VictimsIsolated(f, t.forest, p);
    forall x | x in st.free ensures t.forest.Isolated(x) {
      KeptChildren(f, t.forest, Elems(vs), x);
      EmptyElems(f.kids[x]);
    }
    assert forall x :: x in t.free ==> x in Elems(vs) + Elems(st.free);
    assert forall x :: x in vs ==> x in Elems(t.free);
  }

  // ---------- terminateProcess as written ----------

  datatype Activation = Deeper | Returns(st: Sys)

  /** terminateProcess without its missing parameter: every activation starts again from the current process. Up to
      depth activations are nested; Deeper means that these are not enough. */
  ghost function AsWritten(st: Sys, depth: nat): Activation
    requires st.current != null && st.current in st.forest.kids
  {
    if st.forest.kids[st.current] == [] then Returns(Kill(st, st.current))
    else if depth == 0 then Deeper
    else match AsWritten(st, depth - 1)
      case Deeper => Deeper
      case Returns(t) => Returns(Kill(t, st.current))
  }

  ghost predicate ReturnsWithin(st: Sys, depth: nat)
    requires st.current != null && st.current in st.forest.kids
  {
    AsWritten(st, depth).Returns?
  }

  /** As written it returns exactly when the current process has no children, and then it does what the repaired
      function does. */
  lemma AsWrittenReturns(st: Sys)
    requires st.Sound() && st.current != null
    ensures (exists depth: nat :: ReturnsWithin(st, depth)) <==> st.forest.kids[st.current] == []
    ensures forall depth: nat :: ReturnsWithin(st, depth) ==> AsWritten(st, depth).st == Terminate(st)
  {
    forall depth: nat
      ensures ReturnsWithin(st, depth) <==> st.forest.kids[st.current] == []
      ensures ReturnsWithin(st, depth) ==> AsWritten(st, depth).st == Kill(st, st.current)
    {
      NeverReturns(st, depth);
    }
    assert ReturnsWithin(st, 0) <==> st.forest.kids[st.current] == [];
    if st.forest.kids[st.current] == [] {
      var vs := Victims(st.forest, st.current);
      assert vs == [st.current] && vs[..|vs| - 1] == [] && Last(vs) == st.current;
      assert KillAll(st, vs) == Kill(KillAll(st, vs[..|vs| - 1]), Last(vs)) == Kill(st, st.current);
    }
  }

  lemma {:induction false} NeverReturns(st: Sys, depth: nat)
    requires st.current != null && st.current in st.forest.kids
    ensures AsWritten(st, depth) ==
              if st.forest.kids[st.current] == [] then Returns(Kill(st, st.current)) else Deeper
  {
    if depth > 0 {
      NeverReturns(st, depth - 1);
    }
  }

  // ---------- one activation of terminateProcess ----------

  lemma {:induction false} KillAllConcat(st: Sys, a: seq<Pcb>, b: seq<Pcb>)
    ensures KillAll(st, a + b) == KillAll(KillAll(st, a), b)
  {
    if b == [] {
      assert a + b == a;
    } else {
      KillAllConcat(st, a, b[..|b| - 1]);
      assert (a + b)[..|a + b| - 1] == a + b[..|b| - 1] && Last(a + b) == Last(b);
    }
  }

  lemma {:induction false} KillAllStopped(st: Sys, vs: seq<Pcb>)
    ensures st.status != Running ==> KillAll(st, vs) == st
  {
    if vs != [] {
      KillAllStopped(st, vs[..|vs| - 1]);
    }
  }

  /** A child list none of whose members is killed stays as it is. */
  lemma {:induction false} KillAllElsewhere(st: Sys, vs: seq<Pcb>, x: Pcb)
    requires st.Sound() && x in st.Table()
    requires forall v :: v in vs && v in st.forest.par ==> st.forest.par[v] != x
    ensures KillAll(st, vs).Sound() && x in KillAll(st, vs).forest.kids
    ensures KillAll(st, vs).forest.kids[x] == st.forest.kids[x]
  {
    if vs != [] {
      var a, v := vs[..|vs| - 1], Last(vs);
      KillAllElsewhere(st, a, x);
      KillAllSound(st, vs);
      var f, g := st.forest, KillAll(st, a).forest;
      assert f.Owns(x) && v in vs;
      assert v in g.par ==> g.Listed(v);
    }
  }

  /** Killing the members of vs one by one, and stopping early. */
  lemma KillAllStep(st: Sys, vs: seq<Pcb>, i: nat)
    requires st.Sound() && i < |vs|
    ensures KillAll(st, vs[..i]).Sound()
    ensures vs[i..][0] == vs[i] && vs[i..][1..] == vs[i + 1..]
    ensures Kill(KillAll(st, vs[..i]), vs[i]) == KillAll(st, vs[..i + 1])
    ensures KillAll(st, vs[..i + 1]).status != Running || i + 1 == |vs| ==> KillAll(st, vs) == KillAll(st, vs[..i + 1])
  {
    KillAllSound(st, vs[..i]);
    assert i + 1 == |vs| ==> vs[..i + 1] == vs;
    assert vs[..i + 1][..i] == vs[..i];
    assert vs == vs[..i + 1] + vs[i + 1..];
    KillAllConcat(st, vs[..i + 1], vs[i + 1..]);
    KillAllStopped(KillAll(st, vs[..i + 1]), vs[i + 1..]);
  }

  /** What one activation of terminateProcess kills. */
  ghost function Doomed(f: Forest, process: Pcb, current: Pcb): seq<Pcb>
    requires f.Wf() && process in f.kids && (process == current || process in f.par)
  {
    KillList(f, process) + if process == current then [process] else (assert f.Listed(process); f.kids[f.par[process]])
  }

  lemma FirstChildDoomed(f: Forest, process: Pcb, current: Pcb)
    requires f.Wf() && process in f.kids && f.kids[process] != []
    requires process == current || f.Above(current, process)
    ensures var c := f.kids[process][0];
            && c in f.par && c in f.kids && First(f, c) && f.Above(current, c)
            && Doomed(f, c, current) == KillList(f, process)
            && f.kids.Keys - f.Ancestors(c) < f.kids.Keys - f.Ancestors(process)
  {
    var c := f.kids[process][0];
    AboveChild(f, process, c);
    if process != current { AboveTrans(f, current, process, c); }
    NotOwnAncestor(f, current);
  }

  lemma DoomedSplit(st: Sys, process: Pcb, current: Pcb)
    requires st.Sound() && process in st.Table()
    requires process == current || (process in st.forest.par && First(st.forest, process))
    ensures var t := KillAll(st, KillList(st.forest, process));
            && t.Sound() && t.Table() == st.Table()
            && (t.status != Running ==> KillAll(st, Doomed(st.forest, process, current)) == t)
            && (process == current ==> KillAll(st, Doomed(st.forest, process, current)) == Kill(t, process))
            && (process != current ==>
                  && st.forest.par[process] in t.forest.kids
                  && t.forest.kids[st.forest.par[process]] == st.forest.kids[st.forest.par[process]]
                  && KillAll(st, Doomed(st.forest, process, current))
                     == KillAll(t, st.forest.kids[st.forest.par[process]]))
  {
    var f := st.forest;
    var vs := KillList(f, process);
    var t := KillAll(st, vs);
    KillAllSound(st, vs);
    if process == current {
      KillAllConcat(st, vs, [process]);
      KillAllStopped(t, [process]);
      assert [process][..0] == [];
    } else {
      var x := f.par[process];
      assert f.Listed(process);
      KillAllConcat(st, vs, f.kids[x]);
      KillAllStopped(t, f.kids[x]);
      KillListBelow(f, process);
      forall v | v in vs && v in f.par ensures f.par[v] != x {
        if f.par[v] == x {
          assert f.Listed(v);
          BelowSibling(f, x, process, v);
        }
      }
      KillAllElsewhere(st, vs, x);
    }
  }
}
