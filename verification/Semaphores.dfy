/** The abstract active semaphore list: a map from semaphore address to its non-empty queue of processes. */
module Semaphores {
  import opened Lists
  import opened ProcQueue

  type Queues = map<nat, seq<Pcb>>

  ghost function Members(b: Queues): set<Pcb> {
    set s, p | s in b && p in b[s] :: p
  }

  /** The queue of s is non-empty and duplicate-free, and its members are on no other queue. */
  ghost predicate QueueWf(b: Queues, s: nat)
    requires s in b
  {
    b[s] != [] && NoDup(b[s]) && forall t, p :: t in b && p in b[s] && p in b[t] ==> s == t
  }

  ghost predicate QueuesWf(b: Queues) {
    forall s {:trigger QueueWf(b, s)} :: s in b ==> QueueWf(b, s)
  }

  ghost function QueueOf(b: Queues, s: nat): seq<Pcb> {
    if s in b then b[s] else []
  }

  /** The tail of the queue of s, null when s is not active. */
  ghost function LastOf(b: Queues, s: nat): Pcb? {
    if QueueOf(b, s) == [] then null else Last(QueueOf(b, s))
  }

  /** insertBlocked appends. */
  ghost function Block(b: Queues, s: nat, p: Pcb): Queues {
    b[s := QueueOf(b, s) + [p]]
  }

  /** What becomes of b when the queue of s is replaced by q: an emptied semaphore is no longer active. */
  ghost function Replace(b: Queues, s: nat, q: seq<Pcb>): Queues {
    if q == [] then b - {s} else b[s := q]
  }

  /** removeBlocked pops the front. */
  ghost function Wake(b: Queues, s: nat): Queues {
    if s in b && b[s] != [] then Replace(b, s, b[s][1..]) else b
  }

  /** outBlocked applies outProcQ to the queue that holds p. */
  ghost function Unblock(b: Queues, p: Pcb): Queues {
    map s | s in b && OutQ(b[s], p) != [] :: OutQ(b[s], p)
  }

  lemma NotQueued(b: Queues, t: nat, p: Pcb)
    requires p !in Members(b)
    ensures p !in QueueOf(b, t)
  {
    assert t in b && p in b[t] ==> p in Members(b);
  }

  lemma Queued(b: Queues, t: nat)
    ensures Elems(QueueOf(b, t)) <= Members(b)
  {
    assert t in b ==> forall x :: x in b[t] ==> x in Members(b);
  }

  /** Two queues have no member in common. */
  lemma Apart(b: Queues, s: nat, t: nat)
    requires QueuesWf(b) && s != t
    ensures forall x :: x in QueueOf(b, s) ==> x !in QueueOf(b, t)
  {
    assert s in b ==> QueueWf(b, s);
  }

  lemma BlockWf(b: Queues, s: nat, p: Pcb)
    requires QueuesWf(b) && p !in Members(b)
    ensures QueuesWf(Block(b, s, p)) && Members(Block(b, s, p)) == Members(b) + {p}
  {
    var c := Block(b, s, p);
    assert p in c[s];
    assert p !in QueueOf(b, s) by {
      assert s in b && p in b[s] ==> p in Members(b);
    }
    assert s in b ==> QueueWf(b, s);
    NoDupConcat(QueueOf(b, s), [p]);
    forall t | t in c ensures QueueWf(c, t) {
      assert t in b ==> QueueWf(b, t);
      assert t in b && p in b[t] ==> p in Members(b);
      forall r, x | r in c && x in c[t] && x in c[r] ensures r == t {
        assert r in b && p in b[r] ==> p in Members(b);
      }
    }
    forall x | x in Members(b) + {p} ensures x in Members(c) {
      if x != p {
        var t :| t in b && x in b[t];
        assert x in c[t];
      }
    }
  }

  lemma ReplaceWf(b: Queues, s: nat, q: seq<Pcb>)
    requires QueuesWf(b) && s in b && NoDup(q) && Elems(q) <= Elems(b[s])
    ensures QueuesWf(Replace(b, s, q))
    ensures Members(Replace(b, s, q)) == Members(b) - (Elems(b[s]) - Elems(q))
  {
    var c := Replace(b, s, q);
    assert QueueWf(b, s);
    forall t, x | t in c && x in c[t] ensures t in b && x in b[t] {
      if t == s { assert x in Elems(q); }
    }
    forall t | t in c ensures QueueWf(c, t) {
      assert QueueWf(b, t);
    }
    forall x | x in Members(b) - (Elems(b[s]) - Elems(q)) ensures x in Members(c) {
      var t :| t in b && x in b[t];
      assert t == s ==> x in Elems(q);
      assert t in c && x in c[t];
    }
  }

  lemma WakeWf(b: Queues, s: nat)
    requires QueuesWf(b)
    ensures QueuesWf(Wake(b, s))
    ensures Members(Wake(b, s)) == Members(b) - if QueueOf(b, s) != [] then {b[s][0]} else {}
  {
    if s in b {
      assert QueueWf(b, s);
      var q := b[s][1..];
      assert b[s] == [b[s][0]] + q;
      assert Elems(b[s]) - Elems(q) == {b[s][0]};
      ReplaceWf(b, s, q);
    }
  }

  lemma UnblockStranger(b: Queues, p: Pcb)
    requires QueuesWf(b) && p !in Members(b)
    ensures Unblock(b, p) == b
  {
    forall s | s in b ensures OutQ(b[s], p) == b[s] && b[s] != [] {
      assert QueueWf(b, s);
      assert p !in b[s];
    }
  }

  lemma UnblockMember(b: Queues, s: nat, p: Pcb)
    requires QueuesWf(b) && s in b && p in b[s]
    ensures Unblock(b, p) == Replace(b, s, OutQ(b[s], p))
    ensures QueuesWf(Unblock(b, p))
    ensures Members(Unblock(b, p)) == Members(b) - (if p == Last(b[s]) then Elems(b[s]) else {p})
  {
    assert QueueWf(b, s);
    forall t | t in b && t != s ensures OutQ(b[t], p) == b[t] && b[t] != [] {
      assert QueueWf(b, t);
      assert p !in b[t];
    }
    DelMembers(b[s], p);
    ReplaceWf(b, s, OutQ(b[s], p));
    assert p != Last(b[s]) ==> Elems(b[s]) - Elems(OutQ(b[s], p)) == {p};
  }

  /** outBlocked needs to look at one queue only. */
  lemma UnblockHere(b: Queues, s: nat, p: Pcb)
    requires QueuesWf(b) && s in b && (p in Members(b) <==> p in b[s])
    ensures Unblock(b, p) == Replace(b, s, OutQ(b[s], p))
  {
    if p in b[s] {
      UnblockMember(b, s, p);
    } else {
      UnblockStranger(b, p);
      assert QueueWf(b, s);
      assert b[s := b[s]] == b;
    }
  }

  // ---------- what outBlocked undoes ----------

  /** insertBlocked followed by outBlocked: p is then the tail, so its whole queue is dropped. The pair
      restores the list exactly when the semaphore was inactive. */
  lemma BlockThenUnblock(b: Queues, s: nat, p: Pcb)
    requires QueuesWf(b) && p !in Members(b)
    ensures Unblock(Block(b, s, p), p) == b - {s}
    ensures Unblock(Block(b, s, p), p) == b <==> s !in b
  {
    BlockWf(b, s, p);
    UnblockMember(Block(b, s, p), s, p);
    assert Block(b, s, p) - {s} == b - {s};
    if s !in b {
      assert b - {s} == b;
    } else {
      assert s !in b - {s};
    }
  }

  /** outBlocked removes just p, as its comment says, exactly when p is not the tail of a longer queue. */
  lemma UnblockExact(b: Queues, s: nat, p: Pcb)
    requires QueuesWf(b) && s in b && p in b[s]
    ensures Members(Unblock(b, p)) == Members(b) - {p} <==> p != Last(b[s]) || |b[s]| == 1
  {
    UnblockMember(b, s, p);
    assert QueueWf(b, s);
    var x := b[s][0];
    assert x in Elems(b[s]) && x in Members(b);
    if p == Last(b[s]) && |b[s]| > 1 {
      assert x != p && x in Members(b) - {p} && x !in Members(b) - Elems(b[s]);
    } else if |b[s]| == 1 {
      assert Elems(b[s]) == {p};
    }
  }

  // ---------- pigeonhole ----------

  /** There are at least as many blocked processes as active semaphores, and as many only when each is alone. */
  lemma {:induction false} Pigeonhole(b: Queues)
    requires QueuesWf(b)
    ensures |b| <= |Members(b)|
    ensures |b| == |Members(b)| ==> forall s :: s in b ==> |b[s]| == 1
    decreases |b|
  {
    if b != map[] {
      var s :| s in b;
      var c := b - {s};
      RemoveKey(b, s);
      assert QueueWf(b, s);
      Pigeonhole(c);
      NoDupCard(b[s]);
      assert forall t :: t in b && t != s ==> t in c && b[t] == c[t];
    }
  }

  lemma RemoveKey(b: Queues, s: nat)
    requires QueuesWf(b) && s in b
    ensures QueuesWf(b - {s}) && |b - {s}| == |b| - 1
    ensures Members(b) == Members(b - {s}) + Elems(b[s])
    ensures |Members(b)| == |Members(b - {s})| + |Elems(b[s])|
  {
    var c := b - {s};
    assert QueueWf(b, s);
    forall t | t in c ensures QueueWf(c, t) {
      assert QueueWf(b, t);
    }
    assert c.Keys == b.Keys - {s} && b.Keys == c.Keys + {s};
    forall x ensures x in Members(b) <==> x in Members(c) + Elems(b[s]) {
      if x in Members(b) {
        var t :| t in b && x in b[t];
        assert t != s ==> t in c && x in c[t];
      }
    }
    assert Members(c) !! Elems(b[s]);
  }
}
