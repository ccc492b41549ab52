/** The k best results so far: a bounded heap and the threshold it implies (TkoState of
    src/mining/algorithms/tko.rs). */
module TopK {
  import opened Huim

  datatype Cand = Cand(utility: int, itemset: seq<ItemId>)

  /** Vectors compare element by element; a proper prefix is smaller. */
  predicate LexLess(a: seq<ItemId>, b: seq<ItemId>) {
    if b == [] then false
    else if a == [] then true
    else a[0] < b[0] || (a[0] == b[0] && LexLess(a[1..], b[1..]))
  }

  /** The same by position: b goes on where a ends, or a has the smaller item where they first differ. */
  ghost predicate LexBefore(a: seq<ItemId>, b: seq<ItemId>) {
    || a < b
    || exists k :: 0 <= k < |a| && k < |b| && a[..k] == b[..k] && a[k] < b[k]
  }

  lemma {:induction false} LexLessIs(a: seq<ItemId>, b: seq<ItemId>)
    ensures LexLess(a, b) <==> LexBefore(a, b)
  {
    if a != [] && b != [] {
      LexLessIs(a[1..], b[1..]);
      assert a == [a[0]] + a[1..] && b == [b[0]] + b[1..];
      if a[0] < b[0] {
        assert a[..0] == b[..0];
      } else if a[0] == b[0] {
        if LexBefore(a[1..], b[1..]) { LexFurther(a, b); }
        if LexBefore(a, b) { LexCloser(a, b); }
      }
    }
  }

  lemma LexFurther(a: seq<ItemId>, b: seq<ItemId>)
    requires a != [] && b != [] && a[0] == b[0] && LexBefore(a[1..], b[1..])
    ensures LexBefore(a, b)
  {
    if !(a[1..] < b[1..]) {
      var k :| 0 <= k < |a[1..]| && k < |b[1..]| && a[1..][..k] == b[1..][..k] && a[1..][k] < b[1..][k];
      assert a[..k + 1] == [a[0]] + a[1..][..k] && b[..k + 1] == [b[0]] + b[1..][..k];
      assert a[k + 1] < b[k + 1];
    }
  }

  lemma LexCloser(a: seq<ItemId>, b: seq<ItemId>)
    requires a != [] && b != [] && a[0] == b[0] && LexBefore(a, b)
    ensures LexBefore(a[1..], b[1..])
  {
    if !(a < b) {
      var k :| 0 <= k < |a| && k < |b| && a[..k] == b[..k] && a[k] < b[k];
      assert a[1..][..k - 1] == a[..k][1..] && b[1..][..k - 1] == b[..k][1..];
      assert a[1..][k - 1] < b[1..][k - 1];
    }
  }

  predicate CandLess(a: Cand, b: Cand) {
    a.utility < b.utility || (a.utility == b.utility && LexLess(a.itemset, b.itemset))
  }

  lemma {:induction false} LexOrder(a: seq<ItemId>, b: seq<ItemId>, c: seq<ItemId>)
    ensures !LexLess(a, a)
    ensures LexLess(a, b) && LexLess(b, c) ==> LexLess(a, c)
    ensures a == b || LexLess(a, b) || LexLess(b, a)
    ensures LexLess(a, b) ==> !LexLess(b, a)
  {
    if a != [] {
      LexOrder(a[1..], if b == [] then [] else b[1..], if c == [] then [] else c[1..]);
      assert a == [a[0]] + a[1..];
      if b != [] { assert b == [b[0]] + b[1..]; }
    }
  }

  lemma CandOrder(a: Cand, b: Cand, c: Cand)
    ensures !CandLess(a, a)
    ensures CandLess(a, b) && CandLess(b, c) ==> CandLess(a, c)
    ensures a == b || CandLess(a, b) || CandLess(b, a)
    ensures CandLess(a, b) ==> !CandLess(b, a)
  {
    LexOrder(a.itemset, b.itemset, c.itemset);
    LexOrder(b.itemset, a.itemset, c.itemset);
  }

  predicate IsLeast(h: set<Cand>, m: Cand) {
    m in h && forall x | x in h && x != m :: CandLess(m, x)
  }

  lemma {:induction false} LeastExists(h: set<Cand>) returns (m: Cand)
    requires h != {}
    ensures IsLeast(h, m)
    decreases |h|
  {
    m :| m in h;
    if h != {m} {
      var n := LeastExists(h - {m});
      forall x | x in h && x != m && x != n ensures CandLess(n, x) {
        assert x in h - {m};
      }
      forall x ensures CandLess(m, n) && CandLess(n, x) ==> CandLess(m, x) {
        CandOrder(m, n, x);
      }
      CandOrder(m, n, m);
      m := if CandLess(m, n) then m else n;
    }
  }

  lemma LeastUnique(h: set<Cand>, m: Cand, n: Cand)
    requires IsLeast(h, m) && IsLeast(h, n)
    ensures m == n
  {
    CandOrder(m, n, m);
  }

  ghost function Least(h: set<Cand>): (m: Cand)
    requires h != {}
    ensures IsLeast(h, m)
  {
    assert exists m :: IsLeast(h, m) by { var _ := LeastExists(h); }
    var least :| IsLeast(h, least);
    least
  }

  /** The heap after one more offer: with more than k members the least leaves again. */
  ghost function PushPop(h: set<Cand>, c: Cand, k: nat): set<Cand> {
    var g := h + {c};
    if |g| > k then g - {Least(g)} else g
  }

  /** The threshold after an update: a full heap raises it to its least utility, and nothing lowers it. */
  ghost function Raised(h: set<Cand>, k: nat, threshold: int): int {
    if |h| == k && h != {} && Least(h).utility > threshold then Least(h).utility else threshold
  }

  /** H is the k greatest members of S, or all of S if there are fewer. */
  ghost predicate IsTopK(H: set<Cand>, S: iset<Cand>, k: nat) {
    && (forall h | h in H :: h in S) && |H| <= k
    && (forall s | s in S && s !in H :: |H| == k && forall h | h in H :: CandLess(s, h))
  }

  /** Offering one candidate at a time keeps the heap the top k of everything offered. */
  lemma PushPopTopK(H: set<Cand>, S: iset<Cand>, k: nat, c: Cand)
    requires IsTopK(H, S, k) && c !in S
    ensures IsTopK(PushPop(H, c, k), S + iset{c}, k)
  {
    var g := H + {c};
    assert |g| == |H| + 1;
    if |g| > k {
      var m := Least(g);
      var H' := g - {m};
      assert |H'| == k;
      forall s, h | s in S + iset{c} && s !in H' && h in H' ensures CandLess(s, h) {
        if s != m && h == c {
          CandOrder(s, m, h);
        }
      }
    }
  }

  lemma {:induction false} SubsetSize(a: set<Cand>, b: set<Cand>)
    requires a <= b
    ensures |a| <= |b| && (|a| == |b| ==> a == b)
  {
    assert b == a + (b - a);
    assert |b| == |a| + |b - a|;
    if |a| == |b| { assert b - a == {}; }
  }

  /** There is only one top k, so whatever the schedule, the result is the same. */
  lemma TopKUnique(A: set<Cand>, B: set<Cand>, S: iset<Cand>, k: nat)
    requires IsTopK(A, S, k) && IsTopK(B, S, k)
    ensures A == B
  {
    TopKWithin(A, B, S, k);
    TopKWithin(B, A, S, k);
  }

  lemma TopKWithin(A: set<Cand>, B: set<Cand>, S: iset<Cand>, k: nat)
    requires IsTopK(A, S, k) && IsTopK(B, S, k)
    ensures A <= B
  {
    forall a | a in A ensures a in B {
      if a !in B {
        assert |B| == k;
        if B <= A {
          SubsetSize(B, A);
        } else {
          var b :| b in B && b !in A;
          CandOrder(a, b, a);
        }
      }
    }
  }

  /** m has less utility than x, or as much and the smaller vector. */
  ghost predicate Outranked(m: Cand, x: Cand) {
    m.utility < x.utility || (m.utility == x.utility && LexBefore(m.itemset, x.itemset))
  }

  lemma LeastOutranked(g: set<Cand>, m: Cand)
    requires IsLeast(g, m)
    ensures forall x | x in g - {m} :: Outranked(m, x)
  {
    hide LexBefore;
    forall x | x in g - {m} ensures Outranked(m, x) { LexLessIs(m.itemset, x.itemset); }
  }

  class TkoState {
    var heap: set<Cand>
    var threshold: int
    const k: nat

    constructor (k: nat)
      ensures heap == {} && threshold == 0 && this.k == k
    {
      this.k := k;
      heap := {};
      threshold := 0;
    }

    /** The least member, as the top of a min-heap. */
    method Peek() returns (m: Cand)
      requires heap != {}
      ensures IsLeast(heap, m)
    {
      m :| m in heap;
      var rest := heap - {m};
      while rest != {}
        invariant rest <= heap && m in heap && m !in rest
        invariant forall x | x in heap && x !in rest && x != m :: CandLess(m, x)
        decreases rest
      {
        var x :| x in rest;
        rest := rest - {x};
        CandOrder(m, x, m);
        forall y ensures CandLess(x, m) && CandLess(m, y) ==> CandLess(x, y) {
          CandOrder(x, m, y);
        }
        if CandLess(x, m) { m := x; }
      }
    }

    method Pop() returns (m: Cand)
      requires heap != {}
      modifies this`heap
      ensures IsLeast(old(heap), m) && heap == old(heap) - {m}
    {
      m := Peek();
      heap := heap - {m};
    }

    /** Offers one result that is not in the heap yet, while the heap is locked. */
    method Update(utility: int, itemset: seq<ItemId>) returns (t: int)
      requires Cand(utility, itemset) !in heap
      modifies this
      ensures heap == PushPop(old(heap), Cand(utility, itemset), k)
      ensures |old(heap)| == k ==>
                exists m :: && m in old(heap) + {Cand(utility, itemset)} && heap == old(heap) + {Cand(utility, itemset)} - {m}
                            && forall x | x in heap :: Outranked(m, x)
      ensures threshold == Raised(heap, k, old(threshold)) && t == threshold
    {
      heap := heap + {Cand(utility, itemset)};
      ghost var g := heap;
      if |heap| > k {
        var m := Pop();
        LeastUnique(g, m, Least(g));
        LeastOutranked(g, m);
      }
      if |heap| == k && heap != {} {
        var m := Peek();
        LeastUnique(heap, m, Least(heap));
        // Only lock holders store to the threshold, so retried exchanges end with this store.
        if m.utility > threshold { threshold := m.utility; }
      }
      t := threshold;
    }

    /** The final results: everything popped, least first, then reversed. */
    method Drain() returns (results: seq<Cand>)
      modifies this`heap
      ensures heap == {} && Elems(results) == old(heap)
      ensures forall i, j | 0 <= i < j < |results| :: CandLess(results[j], results[i])
    {
      var popped: seq<Cand> := [];
      while heap != {}
        invariant heap !! Elems(popped) && Elems(popped) + heap == old(heap)
        invariant forall i, j | 0 <= i < j < |popped| :: CandLess(popped[i], popped[j])
        invariant forall x, y | x in Elems(popped) && y in heap :: CandLess(x, y)
        decreases heap
      {
        ghost var before := heap;
        var m := Pop();
        assert forall i | 0 <= i < |popped| :: popped[i] in Elems(popped);
        assert Elems(popped + [m]) == Elems(popped) + {m};
        assert before == heap + {m};
        popped := popped + [m];
      }
      var n := |popped|;
      results := seq(n, i requires 0 <= i < n => popped[n - 1 - i]);
      forall x ensures x in Elems(results) <==> x in Elems(popped) {
        if x in popped {
          var i :| 0 <= i < n && popped[i] == x;
          assert results[n - 1 - i] == x;
        }
      }
    }
  }
}
