/** What the operations do, seen from several of them in a row: undone steps, repeated steps, and what none changes. */
module Laws {
  import opened Lists
  import opened ProcQueue
  import opened Semaphores
  import opened Forests
  import opened SystemState
  import opened Operations
  import opened Killing
  import opened Runs
  import opened Guarantees
  import Termination

  // ---------- performing a list of steps ----------

  ghost predicate CanRun(st: Sys, trace: seq<Step>)
    decreases |trace|
  {
    trace == [] || (Enabled(st, trace[0]) && CanRun(Next(st, trace[0]), trace[1..]))
  }

  ghost function After(st: Sys, trace: seq<Step>): Sys
    requires CanRun(st, trace)
    decreases |trace|
  {
    if trace == [] then st else After(Next(st, trace[0]), trace[1..])
  }

  ghost function Answers(st: Sys, trace: seq<Step>): seq<Reply>
    requires CanRun(st, trace)
    decreases |trace|
  {
    if trace == [] then [] else [ReplyTo(st, trace[0])] + Answers(Next(st, trace[0]), trace[1..])
  }

  lemma {:induction false} Then(st: Sys, a: seq<Step>, b: seq<Step>)
    requires CanRun(st, a) && CanRun(After(st, a), b)
    ensures CanRun(st, a + b) && After(st, a + b) == After(After(st, a), b)
    ensures Answers(st, a + b) == Answers(st, a) + Answers(After(st, a), b)
    decreases |a|
  {
    if a == [] {
      assert a + b == b;
      assert Answers(st, a) == [] && [] + Answers(st, b) == Answers(st, b);
    } else {
      Then(Next(st, a[0]), a[1..], b);
      assert (a + b)[0] == a[0] && (a + b)[1..] == a[1..] + b;
    }
  }

  lemma Once(st: Sys, step: Step)
    requires Enabled(st, step)
    ensures CanRun(st, [step]) && After(st, [step]) == Next(st, step) && Answers(st, [step]) == [ReplyTo(st, step)]
  {
    assert [step][1..] == [];
    assert CanRun(Next(st, step), []);
    assert Answers(Next(st, step), []) == [];
  }

  /** These are the runs of the specification, which the linked structures carry out. */
  lemma {:induction false} RunAfter(states: seq<Sys>, trace: seq<Step>)
    requires IsRun(states, trace)
    ensures CanRun(states[0], trace) && After(states[0], trace) == Last(states)
    ensures Answers(states[0], trace) == Replies(states, trace)
  {
    if trace != [] {
      var rest, more := trace[1..], states[1..];
      assert StepAt(states, trace, 0);
      forall i: nat | i < |rest| ensures StepAt(more, rest, i) {
        assert StepAt(states, trace, i + 1);
      }
      RunAfter(more, rest);
      assert Last(more) == Last(states);
      assert [ReplyTo(states[0], trace[0])] + Replies(more, rest) == Replies(states, trace);
    }
  }

  ghost function Repeat<T>(x: T, n: nat): (r: seq<T>)
    ensures |r| == n && forall i :: 0 <= i < n ==> r[i] == x
  {
    seq(n, i => x)
  }

  lemma RepeatMore<T>(x: T, n: nat)
    ensures Repeat(x, n + 1) == Repeat(x, n) + [x]
  {
  }

  lemma OnceMore(st: Sys, step: Step, n: nat)
    requires CanRun(st, Repeat(step, n)) && Enabled(After(st, Repeat(step, n)), step)
    ensures CanRun(st, Repeat(step, n + 1))
    ensures After(st, Repeat(step, n + 1)) == Next(After(st, Repeat(step, n)), step)
    ensures Answers(st, Repeat(step, n + 1)) ==
              Answers(st, Repeat(step, n)) + [ReplyTo(After(st, Repeat(step, n)), step)]
  {
    Once(After(st, Repeat(step, n)), step);
    RepeatMore(step, n);
    Then(st, Repeat(step, n), [step]);
  }

  // ---------- what an operation leaves alone ----------

  ghost predicate SystemCall(step: Step) {
    step.CreateProcess? || step.TerminateProcess?
  }

  ghost predicate OnSemaphores(step: Step) {
    step.InsertBlocked? || step.RemoveBlocked? || step.OutBlocked?
  }

  ghost predicate OnForest(step: Step) {
    step.InsertChild? || step.OutChild? || step.RemoveChild?
  }

  /** Nothing ever changes softBlockCount, and each other part is touched by the operations named here only. */
  lemma LeavesAlone(st: Sys, step: Step)
    requires st.Sound() && Enabled(st, step)
    ensures Next(st, step).soft == st.soft
    ensures step.Scheduler? || Next(st, step).current == st.current
    ensures step.Scheduler? || SystemCall(step) || Next(st, step).count == st.count
    ensures step.Scheduler? || SystemCall(step) || step.InsertReady? || Next(st, step).ready == st.ready
    ensures step.Scheduler? || SystemCall(step) || step.OutBlocked? || Next(st, step).status == Running
    ensures step == Scheduler(0) || SystemCall(step) || step.AllocPcb? || step.FreePcb?
            || Next(st, step).free == st.free
    ensures OnForest(step) || SystemCall(step) || Next(st, step).forest == st.forest
    ensures OnSemaphores(step) || Next(st, step).blocked == st.blocked
  {
    if step.TerminateProcess? && st.current != null {
      KillAllBlocked(st, Termination.Victims(st.forest, st.current));
      KillAllSoft(st, Termination.Victims(st.forest, st.current));
    }
  }

  lemma {:induction false} KillAllSoft(st: Sys, vs: seq<Pcb>)
    ensures KillAll(st, vs).soft == st.soft
  {
    if vs != [] {
      KillAllSoft(st, vs[..|vs| - 1]);
    }
  }

  // ---------- the pool is a stack ----------

  /** A well-nested pattern of freePcb and allocPcb: p is freed, inner happens, p is allocated, rest happens. */
  datatype Nest = Empty | Pair(p: Pcb, inner: Nest, rest: Nest)

  ghost function Steps(n: Nest): seq<Step> {
    match n
    case Empty => []
    case Pair(p, inner, rest) => [FreePcb(p)] + Steps(inner) + [AllocPcb] + Steps(rest)
  }

  /** Every allocPcb answers with the process of the freePcb it is paired with. */
  ghost function Returned(n: Nest): seq<Reply> {
    match n
    case Empty => []
    case Pair(p, inner, rest) => [Nothing] + Returned(inner) + [Process(p)] + Returned(rest)
  }

  /** The processes freed are in nobody's list and without family, and no one is freed while it is in the pool. */
  ghost predicate Freeable(st: Sys, n: Nest)
    decreases n
  {
    match n
    case Empty => true
    case Pair(p, inner, rest) =>
      st.Detached(p) && st.forest.Isolated(p) && Freeable(st.(free := [p] + st.free), inner) && Freeable(st, rest)
  }

  /** Processes are handed out last in, first out, and a well-nested pattern changes nothing in the end. */
  lemma {:induction false} PoolIsStack(st: Sys, n: Nest)
    requires st.status == Running && Freeable(st, n)
    ensures CanRun(st, Steps(n)) && After(st, Steps(n)) == st && Answers(st, Steps(n)) == Returned(n)
    decreases n
  {
    match n
    case Empty =>
    case Pair(p, inner, rest) =>
      var t := Next(st, FreePcb(p));
      FreeThenAlloc(st, p);
      PoolIsStack(t, inner);
      PoolIsStack(st, rest);
      Once(st, FreePcb(p));
      Once(t, AllocPcb);
      Then(st, [FreePcb(p)], Steps(inner));
      Then(st, [FreePcb(p)] + Steps(inner), [AllocPcb]);
      Then(st, [FreePcb(p)] + Steps(inner) + [AllocPcb], Steps(rest));
  }

  /** allocPcb hands out the process that was freed last, and undoes freePcb. */
  lemma FreeThenAlloc(st: Sys, p: Pcb)
    requires Enabled(st, FreePcb(p)) && st.forest.Isolated(p)
    ensures var t := Next(st, FreePcb(p));
            Enabled(t, AllocPcb) && ReplyTo(t, AllocPcb) == Process(p) && Next(t, AllocPcb) == st
  {
    assert Next(st, FreePcb(p)).free[1..] == st.free;
  }

  /** freePcb undoes allocPcb, which answers NULL exactly when it changes nothing. */
  lemma AllocThenFree(st: Sys)
    requires st.Sound() && Enabled(st, AllocPcb)
    ensures ReplyTo(st, AllocPcb) == Process(null) <==> Next(st, AllocPcb) == st
    ensures st.free == [] <==> Next(st, AllocPcb) == st
    ensures forall p: Pcb :: ReplyTo(st, AllocPcb) == Process(p) ==>
              p in st.free && Enabled(Next(st, AllocPcb), FreePcb(p)) && Next(Next(st, AllocPcb), FreePcb(p)) == st
  {
    if st.free != [] {
      PooledElsewhere(st, st.free[0]);
      assert st.free == [st.free[0]] + st.free[1..] && |st.free[1..]| != |st.free|;
    }
  }

  // ---------- the forest ----------

  /** outChild undoes insertChild, and hands out the child. */
  lemma InsertThenOutChild(st: Sys, x: Pcb, p: Pcb)
    requires st.Sound() && Enabled(st, InsertChild(x, p))
    ensures var t := Next(st, InsertChild(x, p));
            && p in t.forest.par && t.forest.par[p] == x && t.forest.kids[x][0] == p
            && Enabled(t, OutChild(p)) && ReplyTo(t, OutChild(p)) == Process(p) && Next(t, OutChild(p)) == st
            && Enabled(t, RemoveChild(x)) && ReplyTo(t, RemoveChild(x)) == Process(p) && Next(t, RemoveChild(x)) == st
  {
    InsertThenOut(st.forest, x, p);
    InsertMatched(st.forest, x, p);
  }

  /** What outChild does to every process: p alone loses its parent, and no list but that of its parent changes, in
      which the others keep their order. It answers NULL exactly when p has no parent, and then changes nothing. */
  lemma OutChildEffect(st: Sys, p: Pcb)
    requires st.Sound() && Enabled(st, OutChild(p))
    ensures var f, g := st.forest, Next(st, OutChild(p)).forest;
            && (forall x :: x in g.par <==> x in f.par && x != p)
            && (forall x :: x in g.par ==> g.par[x] == f.par[x])
            && g.kids.Keys == f.kids.Keys && g.kids[p] == f.kids[p]
            && (forall x, a, b :: x in f.kids ==>
                  (Before(g.kids[x], a, b) <==> Before(f.kids[x], a, b) && a != p && b != p))
            && ReplyTo(st, OutChild(p)) == (if p in f.par then Process(p) else Process(null))
            && (p !in f.par ==> g == f)
  {
    var f, g := st.forest, Next(st, OutChild(p)).forest;
    OutMatched(f, p);
    if p in f.par {
      var k := ChildListed(f, p);
      DelAt(f.kids[f.par[p]], k);
      NotOwnAncestor(f, p);
      assert Up(f.par, p, 1) == Up(f.par, f.par[p], 0) == f.par[p];
      forall x, a, b | x in f.kids
        ensures Before(g.kids[x], a, b) <==> Before(f.kids[x], a, b) && a != p && b != p
      {
        if x == f.par[p] {
          CutKeepsOrder(f.kids[x], k, a, b);
        } else {
          Elsewhere(f, p, x, a, b);
        }
      }
    } else {
      forall x, a, b | x in f.kids
        ensures Before(g.kids[x], a, b) <==> Before(f.kids[x], a, b) && a != p && b != p
      {
        Elsewhere(f, p, x, a, b);
      }
    }
  }

  lemma Elsewhere(f: Forest, p: Pcb, x: Pcb, a: Pcb, b: Pcb)
    requires f.Matched() && x in f.kids && (p in f.par ==> x != f.par[p])
    ensures Before(f.kids[x], a, b) ==> a != p && b != p
  {
    assert f.Owns(x);
  }

  lemma CutKeepsOrder(q: seq<Pcb>, k: nat, a: Pcb, b: Pcb)
    requires NoDup(q) && k < |q|
    ensures Before(q[..k] + q[k + 1..], a, b) <==> Before(q, a, b) && a != q[k] && b != q[k]
  {
    if Before(q[..k] + q[k + 1..], a, b) {
      CutBefore(q, k, a, b);
    }
    if Before(q, a, b) && a != q[k] && b != q[k] {
      UncutBefore(q, k, a, b);
    }
  }

  lemma CutBefore(q: seq<Pcb>, k: nat, a: Pcb, b: Pcb)
    requires NoDup(q) && k < |q| && Before(q[..k] + q[k + 1..], a, b)
    ensures Before(q, a, b) && a != q[k] && b != q[k]
  {
    var r := q[..k] + q[k + 1..];
    var i, j :| 0 <= i < j < |r| && r[i] == a && r[j] == b;
    var i', j' := if i < k then i else i + 1, if j < k then j else j + 1;
    assert q[i'] == a && q[j'] == b;
  }

  lemma UncutBefore(q: seq<Pcb>, k: nat, a: Pcb, b: Pcb)
    requires NoDup(q) && k < |q| && Before(q, a, b) && a != q[k] && b != q[k]
    ensures Before(q[..k] + q[k + 1..], a, b)
  {
    var r := q[..k] + q[k + 1..];
    var i, j :| 0 <= i < j < |q| && q[i] == a && q[j] == b;
    var i', j' := if i < k then i else i - 1, if j < k then j else j - 1;
    assert r[i'] == a && r[j'] == b;
  }

  /** removeChild is outChild on the first child. */
  lemma RemoveChildEffect(st: Sys, p: Pcb)
    requires st.Sound() && Enabled(st, RemoveChild(p))
    ensures st.forest.kids[p] == [] ==>
              Next(st, RemoveChild(p)) == st && ReplyTo(st, RemoveChild(p)) == Process(null)
    ensures st.forest.kids[p] != [] ==>
              var c := st.forest.kids[p][0];
              && Enabled(st, OutChild(c)) && Next(st, RemoveChild(p)) == Next(st, OutChild(c))
              && ReplyTo(st, RemoveChild(p)) == Process(c) == ReplyTo(st, OutChild(c))
              && Next(st, RemoveChild(p)).forest.kids[p] == st.forest.kids[p][1..]
  {
    if st.forest.kids[p] != [] {
      assert st.forest.Owns(p) && st.forest.kids[p][0] in st.forest.kids[p];
      DelHead(st.forest.kids[p]);
    }
  }

  // ---------- createProcess ----------

  /** The current process may create, and goes on being able to. */
  ghost predicate Creating(st: Sys) {
    && st.Sound() && st.Clean() && st.status == Running
    && st.current != null && st.current !in st.free
  }

  /** t is st after the current process has created vs, in this order. */
  ghost predicate Created(st: Sys, t: Sys, vs: seq<Pcb>)
    requires st.current != null && st.current in st.Table()
  {
    && t.status == Running && t.current == st.current && t.soft == st.soft && t.blocked == st.blocked
    && t.ready == st.ready + vs && t.count == st.count + |vs|
    && t.Table() == st.Table() && t.forest.kids[st.current] == Reverse(vs) + st.forest.kids[st.current]
    && (forall x :: x in st.Table() && x != st.current ==> t.forest.kids[x] == st.forest.kids[x])
    && t.forest.par.Keys == st.forest.par.Keys + Elems(vs)
    && (forall x :: x in vs ==> t.forest.par[x] == st.current)
    && (forall x :: x in st.forest.par && x !in vs ==> t.forest.par[x] == st.forest.par[x])
  }

  /** n times createProcess: the next n of the pool become children of the current process, newest first and in front of
      those it had, and are ready, oldest first, behind those that were. */
  lemma {:induction false} CreateMany(st: Sys, n: nat)
    requires Creating(st) && n <= |st.free|
    ensures CanRun(st, Repeat(CreateProcess, n)) && Creating(After(st, Repeat(CreateProcess, n)))
    ensures Created(st, After(st, Repeat(CreateProcess, n)), st.free[..n])
    ensures After(st, Repeat(CreateProcess, n)).free == st.free[n..]
    ensures Answers(st, Repeat(CreateProcess, n)) == Repeat(Code(0), n)
  {
    if n == 0 {
      assert st.ready + [] == st.ready && [] + st.forest.kids[st.current] == st.forest.kids[st.current];
    } else {
      CreateMany(st, n - 1);
      var t := After(st, Repeat(CreateProcess, n - 1));
      CreateOne(t);
      OnceMore(st, CreateProcess, n - 1);
      RepeatMore(Code(0), n - 1);
      CreatedMore(st, t, Next(t, CreateProcess), st.free, n - 1);
    }
  }

  lemma CreateOne(st: Sys)
    requires Creating(st) && st.free != []
    ensures Enabled(st, CreateProcess) && ReplyTo(st, CreateProcess) == Code(0)
    ensures var t := Next(st, CreateProcess);
            Creating(t) && t.free == st.free[1..] && Created(st, t, [st.free[0]])
  {
    var p, t := st.free[0], Next(st, CreateProcess);
    StepSound(st, CreateProcess);
    CreateClean(st);
    assert st.free == [p] + t.free && st.forest.Isolated(p);
    assert Reverse([p]) == [p] + Reverse([p][..0]);
    assert t.forest.par.Keys == st.forest.par.Keys + {p};
  }

  lemma CreatedMore(st: Sys, t: Sys, u: Sys, q: seq<Pcb>, n: nat)
    requires st.current != null && st.current in st.Table() && n < |q|
    requires Created(st, t, q[..n]) && Created(t, u, [q[n]])
    ensures Created(st, u, q[..n + 1])
  {
    var a, b := q[..n], q[..n + 1];
    assert b == a + [q[n]] && b[..|b| - 1] == a && Last(b) == q[n];
    assert [q[n]][..0] == [] && Reverse([q[n]]) == [q[n]];
    assert u.forest.kids[st.current] == Reverse(b) + st.forest.kids[st.current];
    assert st.ready + a + [q[n]] == st.ready + b;
    ConcatElems(a, [q[n]]);
    assert Elems([q[n]]) == {q[n]};
  }

  /** With an empty pool it answers -1, any number of times, and changes nothing. */
  lemma {:induction false} CreateExhausted(st: Sys, n: nat)
    requires Creating(st) && st.free == []
    ensures CanRun(st, Repeat(CreateProcess, n)) && After(st, Repeat(CreateProcess, n)) == st
    ensures Answers(st, Repeat(CreateProcess, n)) == Repeat(Code(-1), n)
  {
    if n > 0 {
      CreateExhausted(st, n - 1);
      OnceMore(st, CreateProcess, n - 1);
      RepeatMore(Code(-1), n - 1);
    }
  }

  // ---------- scheduler ----------

  /** A process is running, and on no list. */
  ghost predicate Turning(st: Sys) {
    && st.Sound() && st.status == Running && st.current != null && st.Detached(st.current)
  }

  /** The running process and those waiting for their turn. */
  ghost function Turns(st: Sys): seq<Pcb>
    requires st.current != null
  {
    [st.current] + st.ready
  }

  /** st with the running process and the ready queue replaced by those in q. */
  ghost function WithTurns(st: Sys, q: seq<Pcb>): Sys
    requires q != []
  {
    st.(current := q[0], ready := q[1..])
  }

  /** Round robin: n time slices take the first n of the running and the ready to the back, and change nothing else.
      After a full round everything is as it was. */
  lemma {:induction false} RoundRobin(st: Sys, n: nat)
    requires Turning(st) && st.ready != [] && n <= |st.ready| + 1
    ensures var q := Turns(st);
            && CanRun(st, Repeat(Scheduler(1), n))
            && After(st, Repeat(Scheduler(1), n)) == WithTurns(st, q[n..] + q[..n])
            && Turning(After(st, Repeat(Scheduler(1), n)))
            && (n == |q| ==> After(st, Repeat(Scheduler(1), n)) == st)
  {
    var q := Turns(st);
    if n == 0 {
      assert q[0..] + q[..0] == q;
    } else {
      RoundRobin(st, n - 1);
      var t := After(st, Repeat(Scheduler(1), n - 1));
      OneSlice(t);
      OnceMore(st, Scheduler(1), n - 1);
      TurnOn(q, n - 1);
      assert Turns(t) == q[n - 1..] + q[..n - 1];
    }
  }

  lemma TurnOn(q: seq<Pcb>, n: nat)
    requires n < |q|
    ensures var r := q[n..] + q[..n]; r[1..] + [r[0]] == q[n + 1..] + q[..n + 1]
    ensures n + 1 == |q| ==> q[n + 1..] + q[..n + 1] == q
  {
  }

  lemma OneSlice(st: Sys)
    requires Turning(st) && st.ready != []
    ensures Enabled(st, Scheduler(1)) && Turning(Next(st, Scheduler(1)))
    ensures Next(st, Scheduler(1)) == WithTurns(st, Turns(st)[1..] + [Turns(st)[0]])
  {
    var q := Turns(st);
    assert (q[1..] + [q[0]])[0] == st.ready[0] && (q[1..] + [q[0]])[1..] == st.ready[1..] + [st.current];
    assert (st.ready + [st.current])[1..] == st.ready[1..] + [st.current];
    DispatchedLoose(st, Scheduler(1));
  }

  /** A dispatched process is on no list. */
  lemma DispatchedLoose(st: Sys, step: Step)
    requires Turning(st) && st.ready != [] && step in {Scheduler(0), Scheduler(1), Scheduler(9)}
    ensures Enabled(st, step) && Turning(Next(st, step))
  {
    var t, p := Next(st, step), st.ready[0];
    StepSound(st, step);
    ListsApart(st);
    assert st.ready == [p] + st.ready[1..] && p != st.current && p in Elems(st.ready);
    assert p !in st.ready[1..];
  }

  /** Ending n processes in a row: the first n of the running and the ready return to the pool, the one that ended last
      in front, the next one runs, and the count goes down by n. */
  lemma {:induction false} EndMany(st: Sys, n: nat)
    requires Turning(st) && n <= |st.ready|
    ensures var q := Turns(st);
            && CanRun(st, Repeat(Scheduler(0), n))
            && After(st, Repeat(Scheduler(0), n))
               == WithTurns(st, q[n..]).(free := Reverse(q[..n]) + st.free, count := st.count - n)
            && Turning(After(st, Repeat(Scheduler(0), n)))
  {
    var q := Turns(st);
    if n == 0 {
      assert q[0..] == q && Reverse(q[..0]) + st.free == st.free;
    } else {
      EndMany(st, n - 1);
      var t := After(st, Repeat(Scheduler(0), n - 1));
      assert Turns(t) == q[n - 1..] && q[n - 1..][1..] == q[n..] && q[n - 1..][0] == q[n - 1];
      DispatchedLoose(t, Scheduler(0));
      OnceMore(st, Scheduler(0), n - 1);
      ReverseMore(q, n - 1, st.free);
    }
  }

  lemma ReverseMore(q: seq<Pcb>, n: nat, free: seq<Pcb>)
    requires n < |q|
    ensures [q[n]] + (Reverse(q[..n]) + free) == Reverse(q[..n + 1]) + free
  {
    assert q[..n + 1][..n] == q[..n] && Last(q[..n + 1]) == q[n];
  }

  /** scheduler(9) takes the next one and puts the running process nowhere. */
  lemma {:induction false} SwitchMany(st: Sys, n: nat)
    requires Turning(st) && n <= |st.ready|
    ensures CanRun(st, Repeat(Scheduler(9), n))
    ensures After(st, Repeat(Scheduler(9), n)) == WithTurns(st, Turns(st)[n..])
    ensures Turning(After(st, Repeat(Scheduler(9), n)))
  {
    var q := Turns(st);
    if n == 0 {
      assert q[0..] == q;
    } else {
      SwitchMany(st, n - 1);
      var t := After(st, Repeat(Scheduler(9), n - 1));
      assert Turns(t) == q[n - 1..] && q[n - 1..][1..] == q[n..];
      DispatchedLoose(t, Scheduler(9));
      OnceMore(st, Scheduler(9), n - 1);
    }
  }

  /** With somebody ready, the end of a time slice is insertProcQ followed by scheduler(9), and the end of a process is
      freePcb followed by scheduler(9), but for the count. */
  lemma SchedulerSplits(st: Sys)
    requires Turning(st) && st.ready != []
    ensures var t := Next(st, InsertReady(st.current));
            Enabled(t, Scheduler(9)) && Next(t, Scheduler(9)) == Next(st, Scheduler(1))
    ensures var t := Next(st, FreePcb(st.current));
            Enabled(t, Scheduler(9))
            && Next(st, Scheduler(0)) == Next(t, Scheduler(9)).(count := st.count - 1)
  {
  }

  /** With nobody ready the machine halts when no process is left, panics on a deadlock, and waits when some process is
      blocked for a device; whatever the control value, nothing but the status changes. */
  lemma StopExact(st: Sys, control: int)
    requires st.status == Running && st.ready == []
    ensures Enabled(st, Scheduler(control)) <== st.count == 0 || (st.count > 0 && st.soft >= 0)
    ensures st.count == 0 ==> Next(st, Scheduler(control)) == st.(status := Halted)
    ensures st.count > 0 && st.soft == 0 ==> Next(st, Scheduler(control)) == st.(status := Panicked)
    ensures st.count > 0 && st.soft > 0 ==> Next(st, Scheduler(control)) == st.(status := Waiting)
  {
  }

  /** With somebody ready no control value stops the machine, except for want of a current process. */
  lemma GoesOn(st: Sys, control: int)
    requires st.ready != [] && Enabled(st, Scheduler(control))
    ensures Next(st, Scheduler(control)).status ==
              if control == 9 || st.current != null then Running else Faulted
    ensures control !in {0, 1, 9} && st.current != null ==> Next(st, Scheduler(control)) == st
    ensures control != 9 && st.current == null ==> Next(st, Scheduler(control)) == st.(status := Faulted)
  {
  }

  /** Without a current process the system calls, and scheduler(0) and scheduler(1), go through NULL first thing. */
  lemma NobodyRunning(st: Sys, step: Step)
    requires st.current == null && Enabled(st, step)
    requires SystemCall(step) || (step in {Scheduler(0), Scheduler(1)} && st.ready != [])
    ensures Next(st, step) == st.(status := Faulted) && ReplyTo(st, step) == Nothing
  {
  }

  /** With nobody ready and a negative count the scheduler does not stop: the end of a time slice comes back to the same
      process, and the other two load the state of no process. */
  lemma NegativeCount(st: Sys)
    requires Turning(st) && st.ready == [] && st.count < 0
    ensures Next(st, Scheduler(1)) == st
    ensures Next(st, Scheduler(0)) == Next(st, FreePcb(st.current)).(count := st.count - 1, current := null,
                                                                     status := Faulted)
    ensures Next(st, Scheduler(9)) == st.(current := null, status := Faulted)
  {
    assert (st.ready + [st.current])[1..] == st.ready;
  }

  /** softBlockCount is never counted up, so WAIT is never reached. */
  lemma {:induction false} NeverWaiting(states: seq<Sys>, trace: seq<Step>, i: nat)
    requires IsRun(states, trace) && states[0].Sound() && i < |states|
    requires states[0].soft == 0 && states[0].status != Waiting
    ensures states[i].soft == 0 && states[i].status != Waiting
  {
    if i > 0 {
      NeverWaiting(states, trace, i - 1);
      RunSound(states, trace, i - 1);
      assert StepAt(states, trace, i - 1);
      LeavesAlone(states[i - 1], trace[i - 1]);
      if trace[i - 1].TerminateProcess? && states[i - 1].current != null {
        TerminateExactStop(states[i - 1]);
      }
    }
  }

  lemma TerminateExactStop(st: Sys)
    requires st.Sound() && st.current != null && Enabled(st, TerminateProcess)
    ensures Next(st, TerminateProcess).status in {Running, Panicked, Faulted}
  {
    Termination.KillListBelow(st.forest, st.current);
    KillAllStop(st, Termination.Victims(st.forest, st.current));
  }

  // ---------- semaphores ----------

  /** insertBlocked answers TRUE exactly when it needs a descriptor and all are in use, which is never. */
  lemma FullExact(st: Sys, s: nat, p: Pcb)
    requires st.Sound() && Enabled(st, InsertBlocked(s, p))
    ensures ReplyTo(st, InsertBlocked(s, p)) == Full(s !in st.blocked && |st.blocked| == |st.Table()|)
  {
    NeverFull(st, p);
  }

  /** An operation that stops the machine hands nothing back. */
  lemma NoAnswer(st: Sys, step: Step)
    requires st.Sound() && Enabled(st, step) && Next(st, step).status != Running
    ensures ReplyTo(st, step) == Nothing
  {
    LeavesAlone(st, step);
  }

  /** insertBlocked on an inactive semaphore is undone by removeBlocked and, if a descriptor is left, by outBlocked. */
  lemma BlockThenWake(st: Sys, s: nat, p: Pcb)
    requires st.Sound() && Enabled(st, InsertBlocked(s, p)) && s !in st.blocked
    ensures var t := Next(st, InsertBlocked(s, p));
            && ReplyTo(t, RemoveBlocked(s)) == Process(p) && Next(t, RemoveBlocked(s)) == st
            && (|t.blocked| < |st.Table()| ==>
                  ReplyTo(t, OutBlocked(p)) == Process(p) && Next(t, OutBlocked(p)) == st)
  {
    var t := Next(st, InsertBlocked(s, p));
    assert [] + [p] == [p];
    assert t.blocked[s] == [p] && p in t.blocked[s];
    BlockThenUnblock(st.blocked, s, p);
    assert t.blocked - {s} == st.blocked;
    assert [p][1..] == [];
  }
}
