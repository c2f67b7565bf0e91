/** Finite sequences without repetition: the values that the kernel's linked lists represent. */
module Lists {

  ghost predicate NoDup<T>(q: seq<T>) {
    forall i, j :: 0 <= i < j < |q| ==> q[i] != q[j]
  }

  ghost function Elems<T>(q: seq<T>): set<T> {
    set x | x in q
  }

  ghost function Last<T>(q: seq<T>): T
    requires q != []
  {
    q[|q| - 1]
  }

  /** a comes before b in q. */
  ghost predicate Before<T>(q: seq<T>, a: T, b: T) {
    exists i, j :: 0 <= i < j < |q| && q[i] == a && q[j] == b
  }

  lemma BeforeConcat<T>(q: seq<T>, r: seq<T>, a: T, b: T)
    requires Before(q, a, b) || Before(r, a, b) || (a in q && b in r)
    ensures Before(q + r, a, b)
  {
    if Before(q, a, b) {
      var i, j :| 0 <= i < j < |q| && q[i] == a && q[j] == b;
      assert (q + r)[i] == a && (q + r)[j] == b;
    } else if Before(r, a, b) {
      var i, j :| 0 <= i < j < |r| && r[i] == a && r[j] == b;
      assert (q + r)[|q| + i] == a && (q + r)[|q| + j] == b;
    } else {
      var i :| 0 <= i < |q| && q[i] == a;
      var j :| 0 <= j < |r| && r[j] == b;
      assert (q + r)[i] == a && (q + r)[|q| + j] == b;
    }
  }

  /** q without one occurrence of x; the order of the others stays. */
  ghost function Del<T>(q: seq<T>, x: T): seq<T> {
    if x in q then
      var k :| 0 <= k < |q| && q[k] == x;
      q[..k] + q[k + 1..]
    else q
  }

  lemma DelAt<T>(q: seq<T>, k: nat)
    requires NoDup(q) && k < |q|
    ensures Del(q, q[k]) == q[..k] + q[k + 1..]
  {
    assert q[k] in q;
  }

  lemma DelHead<T>(q: seq<T>)
    requires NoDup(q) && q != []
    ensures Del(q, q[0]) == q[1..]
  {
    DelAt(q, 0);
  }

  lemma DelFront<T>(q: seq<T>, x: T)
    requires NoDup(q) && x !in q
    ensures Del([x] + q, x) == q
  {
    NoDupConcat([x], q);
    DelAt([x] + q, 0);
  }

  lemma CutMembers<T>(q: seq<T>, k: nat)
    requires NoDup(q) && k < |q|
    ensures var r := q[..k] + q[k + 1..]; NoDup(r) && Elems(r) == Elems(q) - {q[k]}
  {
    var r := q[..k] + q[k + 1..];
    assert forall i {:trigger r[i]} :: 0 <= i < |r| ==> r[i] == q[if i < k then i else i + 1];
    forall y | y in q && y != q[k] ensures y in r {
      var i :| 0 <= i < |q| && q[i] == y;
      assert r[if i < k then i else i - 1] == y;
    }
  }

  lemma DelMembers<T>(q: seq<T>, x: T)
    requires NoDup(q)
    ensures NoDup(Del(q, x)) && x !in Del(q, x)
    ensures Elems(Del(q, x)) == Elems(q) - {x}
    ensures |Del(q, x)| == |q| - if x in q then 1 else 0
  {
    if x in q {
      var k :| 0 <= k < |q| && q[k] == x;
      DelAt(q, k);
      CutMembers(q, k);
      assert x !in Elems(Del(q, x));
    } else {
      assert x !in Elems(q);
    }
  }

  lemma PrefixNext<T>(q: seq<T>, i: nat)
    requires i < |q|
    ensures q[..i + 1] == q[..i] + [q[i]]
  {
  }

  lemma ConcatElems<T>(a: seq<T>, b: seq<T>)
    ensures Elems(a + b) == Elems(a) + Elems(b)
  {
  }

  /** A duplicate-free list and its last member. */
  lemma LastOnce<T>(q: seq<T>)
    requires NoDup(q) && q != []
    ensures NoDup(q[..|q| - 1]) && Last(q) !in q[..|q| - 1] && q == q[..|q| - 1] + [Last(q)]
  {
  }

  lemma NoDupConcat<T>(a: seq<T>, b: seq<T>)
    requires NoDup(a) && NoDup(b)
    requires forall x :: x in b ==> x !in a
    ensures NoDup(a + b)
  {
    forall i, j | 0 <= i < j < |a + b| ensures (a + b)[i] != (a + b)[j] {
      if i < |a| <= j {
        assert (a + b)[j] == b[j - |a|] && b[j - |a|] in b;
      }
    }
  }

  lemma EmptyElems<T>(q: seq<T>)
    ensures q == [] <==> Elems(q) == {}
  {
    if q != [] {
      assert q[0] in Elems(q);
    }
  }

  lemma {:induction false} NoDupCard<T>(q: seq<T>)
    requires NoDup(q)
    ensures |Elems(q)| == |q|
  {
    if q != [] {
      NoDupCard(q[..|q| - 1]);
      assert Elems(q) == Elems(q[..|q| - 1]) + {Last(q)};
    }
  }

  lemma NothingLeft<T>(a: set<T>, b: set<T>)
    ensures a - b == {} <==> a <= b
  {
    if a - b == {} {
      forall x | x in a ensures x in b {
        assert x !in a - b;
      }
    }
  }

  lemma SubsetCard<T>(a: set<T>, b: set<T>)
    requires a <= b
    ensures |a| <= |b|
    ensures |a| == |b| ==> a == b
  {
    assert b == a + (b - a);
  }
}
