/** libev's 4-ary timer heap: specification functions over the heap's contents, and the
    loops that carry them out in place with a hole instead of swaps. */
module TimerHeap {
  import opened Common
  import opened Watchers

  /** A heap entry: a watcher with its expiry time cached beside it. */
  datatype Anhe = Anhe(at: int, w: Watcher)

  const DHEAP := 4
  const HEAP0 := 3 // the root's position; its fifteen descendants start 4 * (k - 3) + 4

  function Parent(k: nat): (p: nat)
    requires k >= HEAP0
    ensures HEAP0 <= p <= k && (k > HEAP0 ==> p < k)
  {
    if k == HEAP0 then HEAP0 else (k - HEAP0 - 1) / DHEAP + HEAP0
  }

  function FirstChild(k: nat): (c: nat)
    requires k >= HEAP0
    ensures c > k
  {
    DHEAP * (k - HEAP0) + HEAP0 + 1
  }

  lemma ChildrenOf(i: nat, k: nat)
    requires i > HEAP0 && k >= HEAP0
    ensures Parent(i) == k <==> FirstChild(k) <= i < FirstChild(k) + DHEAP
  {
  }

  function Swap(s: seq<Anhe>, i: nat, j: nat): seq<Anhe>
    requires i < |s| && j < |s|
  {
    s[i := s[j]][j := s[i]]
  }

  /** The n entries of the heap. */
  ghost function Entries(s: seq<Anhe>, n: nat): multiset<Anhe>
    requires HEAP0 + n <= |s|
  {
    multiset(s[HEAP0..HEAP0 + n])
  }

  lemma SwapKeepsEntries(s: seq<Anhe>, n: nat, i: nat, j: nat)
    requires HEAP0 + n <= |s| && HEAP0 <= i < HEAP0 + n && HEAP0 <= j < HEAP0 + n
    ensures Entries(Swap(s, i, j), n) == Entries(s, n)
  {
    var t := s[HEAP0..HEAP0 + n];
    assert s[i := s[j]][HEAP0..HEAP0 + n] == t[i - HEAP0 := s[j]];
    assert Swap(s, i, j)[HEAP0..HEAP0 + n] == t[i - HEAP0 := s[j]][j - HEAP0 := s[i]];
  }

  // ----- heap order

  /** Every entry expires no earlier than its parent. */
  ghost predicate Order(s: seq<Anhe>, n: nat)
    requires HEAP0 + n <= |s|
  {
    forall i {:trigger Parent(i)} :: HEAP0 < i < HEAP0 + n ==> s[Parent(i)].at <= s[i].at
  }

  /** Heap order but for the entry at k, which may be out of order both ways. */
  ghost predicate OrderBut(s: seq<Anhe>, n: nat, k: nat)
    requires HEAP0 + n <= |s| && HEAP0 <= k
  {
    && (forall i {:trigger Parent(i)} :: HEAP0 < i < HEAP0 + n && i != k && Parent(i) != k ==>
      s[Parent(i)].at <= s[i].at)
    && (forall i {:trigger Parent(i)} :: HEAP0 < i < HEAP0 + n && Parent(i) == k && k > HEAP0 && k < HEAP0 + n ==>
      s[Parent(k)].at <= s[i].at)
  }

  /** The entry at k is no later than its children. */
  ghost predicate AboveChildren(s: seq<Anhe>, n: nat, k: nat)
    requires HEAP0 + n <= |s| && HEAP0 <= k < HEAP0 + n
  {
    forall i {:trigger Parent(i)} :: HEAP0 < i < HEAP0 + n && Parent(i) == k ==> s[k].at <= s[i].at
  }

  /** The root is the earliest entry. */
  lemma {:induction false} RootIsLeast(s: seq<Anhe>, n: nat, i: nat)
    requires HEAP0 + n <= |s| && Order(s, n) && HEAP0 <= i < HEAP0 + n
    ensures s[HEAP0].at <= s[i].at
    decreases i
  {
    if i > HEAP0 {
      RootIsLeast(s, n, Parent(i));
    }
  }

  // ----- towards the root

  /** The heap after the entry at k moved up past every later ancestor. */
  function Up(s: seq<Anhe>, k: nat): (t: seq<Anhe>)
    requires HEAP0 <= k < |s|
    ensures |t| == |s|
    decreases k
  {
    var p := Parent(k);
    if p == k || s[p].at <= s[k].at then s else Up(Swap(s, k, p), p)
  }

  lemma {:induction false} UpKeepsEntries(s: seq<Anhe>, n: nat, k: nat)
    requires HEAP0 <= k < HEAP0 + n <= |s|
    ensures Entries(Up(s, k), n) == Entries(s, n)
    ensures forall i {:trigger Up(s, k)[i]} :: 0 <= i < |s| && (i < HEAP0 || i > k) ==> Up(s, k)[i] == s[i]
    decreases k
  {
    var p := Parent(k);
    if p != k && s[p].at > s[k].at {
      SwapKeepsEntries(s, n, k, p);
      UpKeepsEntries(Swap(s, k, p), n, p);
    }
  }

  lemma SwapUpKeepsOrder(s: seq<Anhe>, n: nat, k: nat)
    requires HEAP0 < k < HEAP0 + n <= |s| && OrderBut(s, n, k) && AboveChildren(s, n, k)
    requires s[Parent(k)].at > s[k].at
    ensures OrderBut(Swap(s, k, Parent(k)), n, Parent(k)) && AboveChildren(Swap(s, k, Parent(k)), n, Parent(k))
  {
    var p := Parent(k);
    var t := Swap(s, k, p);
    assert t[p] == s[k] && t[k] == s[p];
    forall i | HEAP0 < i < HEAP0 + n
      ensures i != p && Parent(i) != p ==> t[Parent(i)].at <= t[i].at
      ensures Parent(i) == p && p > HEAP0 ==> t[Parent(p)].at <= t[i].at
      ensures Parent(i) == p ==> t[p].at <= t[i].at
    {
      var _ := s[i];
      if p > HEAP0 { assert s[Parent(p)].at <= s[p].at; }
    }
  }

  /** An entry that may only be too early for its place ends up in order. */
  lemma {:induction false} UpOrders(s: seq<Anhe>, n: nat, k: nat)
    requires HEAP0 <= k < HEAP0 + n <= |s| && OrderBut(s, n, k) && AboveChildren(s, n, k)
    ensures Order(Up(s, k), n)
    decreases k
  {
    var p := Parent(k);
    if p != k && s[p].at > s[k].at {
      SwapUpKeepsOrder(s, n, k);
      UpOrders(Swap(s, k, p), n, p);
    }
  }

  // ----- away from the root

  /** The first of the earliest entries from lo to hi. */
  function ArgMin(s: seq<Anhe>, lo: nat, hi: nat): (m: nat)
    requires lo < hi <= |s|
    ensures lo <= m < hi
    ensures forall i {:trigger s[i]} :: lo <= i < hi ==> s[m].at <= s[i].at && (i < m ==> s[m].at < s[i].at)
    decreases hi
  {
    if hi == lo + 1 then lo
    else var m := ArgMin(s, lo, hi - 1); if s[hi - 1].at < s[m].at then hi - 1 else m
  }

  function MinChild(s: seq<Anhe>, n: nat, k: nat): (m: nat)
    requires HEAP0 <= k && FirstChild(k) < HEAP0 + n <= |s|
    ensures FirstChild(k) <= m < Min(FirstChild(k) + DHEAP, HEAP0 + n)
    ensures forall i {:trigger s[i]} :: FirstChild(k) <= i < Min(FirstChild(k) + DHEAP, HEAP0 + n) ==>
      s[m].at <= s[i].at
  {
    ArgMin(s, FirstChild(k), Min(FirstChild(k) + DHEAP, HEAP0 + n))
  }

  /** The heap after the entry at k moved down past every earlier child. */
  function Down(s: seq<Anhe>, n: nat, k: nat): (t: seq<Anhe>)
    requires HEAP0 <= k < HEAP0 + n <= |s|
    ensures |t| == |s|
    decreases n + HEAP0 - k
  {
    if FirstChild(k) >= HEAP0 + n then s
    else
      var m := MinChild(s, n, k);
      if s[k].at <= s[m].at then s else Down(Swap(s, k, m), n, m)
  }

  lemma {:induction false} DownKeepsEntries(s: seq<Anhe>, n: nat, k: nat)
    requires HEAP0 <= k < HEAP0 + n <= |s|
    ensures Entries(Down(s, n, k), n) == Entries(s, n)
    ensures forall i {:trigger Down(s, n, k)[i]} :: 0 <= i < |s| && (i < k || i >= HEAP0 + n) ==>
      Down(s, n, k)[i] == s[i]
    decreases n + HEAP0 - k
  {
    if FirstChild(k) < HEAP0 + n {
      var m := MinChild(s, n, k);
      if s[k].at > s[m].at {
        SwapKeepsEntries(s, n, k, m);
        DownKeepsEntries(Swap(s, k, m), n, m);
      }
    }
  }

  /** The entry at k is no earlier than its parent. */
  ghost predicate BelowParent(s: seq<Anhe>, n: nat, k: nat)
    requires HEAP0 <= k < HEAP0 + n <= |s|
  {
    s[Parent(k)].at <= s[k].at
  }

  lemma SwapDownKeepsOrder(s: seq<Anhe>, n: nat, k: nat)
    requires HEAP0 <= k && FirstChild(k) < HEAP0 + n <= |s| && OrderBut(s, n, k) && BelowParent(s, n, k)
    requires s[MinChild(s, n, k)].at < s[k].at
    ensures OrderBut(Swap(s, k, MinChild(s, n, k)), n, MinChild(s, n, k))
    ensures BelowParent(Swap(s, k, MinChild(s, n, k)), n, MinChild(s, n, k))
  {
    var m := MinChild(s, n, k);
    var t := Swap(s, k, m);
    ChildrenOf(m, k);
    assert t[m] == s[k] && t[k] == s[m];
    forall i | HEAP0 < i < HEAP0 + n
      ensures i != m && Parent(i) != m ==> t[Parent(i)].at <= t[i].at
      ensures Parent(i) == m ==> t[Parent(m)].at <= t[i].at
    {
      ChildrenOf(i, k);
      var _ := s[i];
      var _ := s[m];
    }
  }

  /** An entry that may only be too late for its place ends up in order. */
  lemma {:induction false} DownOrders(s: seq<Anhe>, n: nat, k: nat)
    requires HEAP0 <= k < HEAP0 + n <= |s| && OrderBut(s, n, k) && BelowParent(s, n, k)
    ensures Order(Down(s, n, k), n)
    decreases n + HEAP0 - k
  {
    forall i | HEAP0 < i < HEAP0 + n ensures Parent(i) == k <==> FirstChild(k) <= i < FirstChild(k) + DHEAP {
      ChildrenOf(i, k);
    }
    if FirstChild(k) < HEAP0 + n {
      var m := MinChild(s, n, k);
      if s[k].at > s[m].at {
        SwapDownKeepsOrder(s, n, k);
        DownOrders(Swap(s, k, m), n, m);
      }
    }
  }

  // ----- either way

  function Adjust(s: seq<Anhe>, n: nat, k: nat): (t: seq<Anhe>)
    requires HEAP0 <= k < HEAP0 + n <= |s|
    ensures |t| == |s|
  {
    if k > HEAP0 && s[k].at <= s[Parent(k)].at then Up(s, k) else Down(s, n, k)
  }

  /** Whatever entry is put at k, adjusting restores the order and loses nothing. */
  lemma AdjustOrders(s: seq<Anhe>, n: nat, k: nat)
    requires HEAP0 <= k < HEAP0 + n <= |s| && OrderBut(s, n, k)
    ensures Order(Adjust(s, n, k), n) && Entries(Adjust(s, n, k), n) == Entries(s, n)
  {
    if k > HEAP0 && s[k].at <= s[Parent(k)].at {
      UpOrders(s, n, k);
      UpKeepsEntries(s, n, k);
    } else {
      DownOrders(s, n, k);
      DownKeepsEntries(s, n, k);
    }
  }

  /** Replacing one entry of an ordered heap leaves it ordered but for that entry. */
  lemma ReplacedIsOrderBut(s: seq<Anhe>, n: nat, k: nat, e: Anhe)
    requires HEAP0 <= k < HEAP0 + n <= |s| && Order(s, n)
    ensures OrderBut(s[k := e], n, k)
  {
    if k > HEAP0 {
      assert s[Parent(k)].at <= s[k].at;
    }
  }

  /** Moving up the first n entries in turn, beginning with the i-th. */
  function Reheaped(s: seq<Anhe>, i: nat, n: nat): (t: seq<Anhe>)
    requires i <= n && HEAP0 + n <= |s|
    ensures |t| == |s|
    decreases n - i
  {
    if i == n then s else Reheaped(Up(s, i + HEAP0), i + 1, n)
  }

  /** The first entry past an ordered heap is the only one that may be out of order. */
  lemma NextIsOrderBut(s: seq<Anhe>, i: nat)
    requires HEAP0 + i < |s| && Order(s, i)
    ensures OrderBut(s, i + 1, i + HEAP0) && AboveChildren(s, i + 1, i + HEAP0)
  {
    forall j | HEAP0 < j < HEAP0 + i + 1 ensures Parent(j) != i + HEAP0 {
    }
  }

  lemma UpExtendsOrder(s: seq<Anhe>, i: nat, n: nat)
    requires i < n && HEAP0 + n <= |s| && Order(s, i)
    ensures Order(Up(s, i + HEAP0), i + 1) && Entries(Up(s, i + HEAP0), n) == Entries(s, n)
  {
    NextIsOrderBut(s, i);
    UpOrders(s, i + 1, i + HEAP0);
    UpKeepsEntries(s, n, i + HEAP0);
  }

  /** Arbitrary contents become a heap of the same entries. */
  lemma {:induction false} ReheapedOrders(s: seq<Anhe>, i: nat, n: nat)
    requires i <= n && HEAP0 + n <= |s| && Order(s, i)
    ensures Order(Reheaped(s, i, n), n) && Entries(Reheaped(s, i, n), n) == Entries(s, n)
    decreases n - i
  {
    if i < n {
      UpExtendsOrder(s, i, n);
      ReheapedOrders(Up(s, i + HEAP0), i + 1, n);
    }
  }

  // ----- in place

  /** The watchers on the heap. */
  ghost function Sitting(s: seq<Anhe>, n: nat): set<Watcher>
    requires HEAP0 + n <= |s|
  {
    set i | HEAP0 <= i < HEAP0 + n :: s[i].w
  }

  /** Every watcher but the one at k knows its position. */
  ghost predicate SeatedBut(s: seq<Anhe>, n: nat, k: nat)
    requires HEAP0 + n <= |s| && HEAP0 <= k < HEAP0 + n
    reads Sitting(s, n)`active
  {
    forall i {:trigger s[i]} :: HEAP0 <= i < HEAP0 + n && i != k ==>
      s[i].w in Sitting(s, n) && s[i].w.active == i && s[i].w != s[k].w
  }

  /** Every watcher knows its position. */
  ghost predicate Seated(s: seq<Anhe>, n: nat)
    requires HEAP0 + n <= |s|
    reads Sitting(s, n)`active
  {
    forall i {:trigger s[i]} :: HEAP0 <= i < HEAP0 + n ==> s[i].w in Sitting(s, n) && s[i].w.active == i
  }

  lemma SwapKeepsSitting(s: seq<Anhe>, n: nat, i: nat, j: nat)
    requires HEAP0 + n <= |s| && HEAP0 <= i < HEAP0 + n && HEAP0 <= j < HEAP0 + n
    ensures Sitting(Swap(s, i, j), n) == Sitting(s, n)
  {
    var t := Swap(s, i, j);
    assert t[i] == s[j] && t[j] == s[i];
    forall w | w in Sitting(s, n) ensures w in Sitting(t, n) {
      var k: nat :| HEAP0 <= k < HEAP0 + n && s[k].w == w;
      assert k != i && k != j ==> t[k].w == w;
    }
    forall w | w in Sitting(t, n) ensures w in Sitting(s, n) {
      var k: nat :| HEAP0 <= k < HEAP0 + n && t[k].w == w;
      assert k != i && k != j ==> s[k].w == w;
    }
  }

  /** Moves the entry at m into the hole at k, so that the hole is at m. */
  method MoveHole(heap: array<Anhe>, ghost n: nat, k: nat, m: nat, ghost he: Anhe)
    requires HEAP0 + n <= heap.Length && HEAP0 <= k < HEAP0 + n && HEAP0 <= m < HEAP0 + n && k != m
    requires SeatedBut(heap[..][k := he], n, k)
    modifies heap, heap[m].w`active
    ensures heap[..][m := he] == Swap(old(heap[..])[k := he], k, m)
    ensures heap[m] == old(heap[m]) && heap[k] == old(heap[m])
    ensures Sitting(heap[..][m := he], n) == Sitting(old(heap[..])[k := he], n)
    ensures SeatedBut(heap[..][m := he], n, m)
  {
    ghost var g := heap[..][k := he];
    assert g[m] == heap[m] && g[k] == he;
    SwapKeepsSitting(g, n, k, m);
    heap[k] := heap[m];
    heap[k].w.active := k;
    assert heap[..][m := he] == Swap(g, k, m);
  }

  method UpHeap(heap: array<Anhe>, k0: nat, ghost n: nat)
    requires HEAP0 <= k0 < HEAP0 + n <= heap.Length && SeatedBut(heap[..], n, k0)
    modifies heap, Sitting(heap[..], n)`active
    ensures heap[..] == Up(old(heap[..]), k0)
    ensures Sitting(heap[..], n) == old(Sitting(heap[..], n)) && Seated(heap[..], n)
  {
    var k := k0;
    var he := heap[k];
    ghost var g := heap[..];
    while true
      invariant HEAP0 <= k <= k0 && |g| == heap.Length
      invariant g == heap[..][k := he]
      invariant Up(g, k) == Up(old(heap[..]), k0)
      invariant Sitting(g, n) == old(Sitting(heap[..], n)) && SeatedBut(g, n, k)
      decreases k
    {
      var p := Parent(k);
      if p == k || heap[p].at <= he.at { break; }
      g := Swap(g, k, p);
      MoveHole(heap, n, k, p, he);
      k := p;
    }
    heap[k] := he;
    he.w.active := k;
    assert heap[..] == g;
  }

  /** The first of the earliest children of k, by the unrolled comparisons.  The entry
      at k itself is not looked at: it is the hole that `he` came from. */
  method FindMinChild(heap: array<Anhe>, n: nat, k: nat, ghost he: Anhe) returns (minpos: nat)
    requires HEAP0 <= k && FirstChild(k) < HEAP0 + n <= heap.Length
    ensures minpos == MinChild(heap[..][k := he], n, k)
  {
    var pos, e := FirstChild(k), n + HEAP0;
    minpos := pos;
    if pos + DHEAP - 1 < e {
      if heap[pos + 1].at < heap[minpos].at { minpos := pos + 1; }
      if heap[pos + 2].at < heap[minpos].at { minpos := pos + 2; }
      if heap[pos + 3].at < heap[minpos].at { minpos := pos + 3; }
    } else {
      if pos + 1 < e && heap[pos + 1].at < heap[minpos].at { minpos := pos + 1; }
      if pos + 2 < e && heap[pos + 2].at < heap[minpos].at { minpos := pos + 2; }
      // the source tests for a fourth child here
      assert pos + 3 >= e;
    }
    ghost var g := heap[..][k := he];
    ghost var m := MinChild(g, n, k);
    assert g[minpos] == heap[minpos] && g[m] == heap[m];
  }

  method DownHeap(heap: array<Anhe>, n: nat, k0: nat)
    requires HEAP0 <= k0 < HEAP0 + n <= heap.Length && SeatedBut(heap[..], n, k0)
    modifies heap, Sitting(heap[..], n)`active
    ensures heap[..] == Down(old(heap[..]), n, k0)
    ensures Sitting(heap[..], n) == old(Sitting(heap[..], n)) && Seated(heap[..], n)
  {
    var k := k0;
    var he := heap[k];
    ghost var g := heap[..];
    while FirstChild(k) < n + HEAP0
      invariant k0 <= k < HEAP0 + n && |g| == heap.Length
      invariant g == heap[..][k := he]
      invariant Down(g, n, k) == Down(old(heap[..]), n, k0)
      invariant Sitting(g, n) == old(Sitting(heap[..], n)) && SeatedBut(g, n, k)
      decreases n + HEAP0 - k
    {
      var m := FindMinChild(heap, n, k, he);
      if he.at <= heap[m].at { break; }
      g := Swap(g, k, m);
      MoveHole(heap, n, k, m, he);
      k := m;
    }
    heap[k] := he;
    he.w.active := k;
    assert heap[..] == g;
  }

  method AdjustHeap(heap: array<Anhe>, n: nat, k: nat)
    requires HEAP0 <= k < HEAP0 + n <= heap.Length && SeatedBut(heap[..], n, k)
    modifies heap, Sitting(heap[..], n)`active
    ensures heap[..] == Adjust(old(heap[..]), n, k)
    ensures Sitting(heap[..], n) == old(Sitting(heap[..], n)) && Seated(heap[..], n)
  {
    if k > HEAP0 && heap[k].at <= heap[Parent(k)].at {
      UpHeap(heap, k, n);
    } else {
      DownHeap(heap, n, k);
    }
  }

  /** No watcher is on the heap twice. */
  ghost predicate Distinct(s: seq<Anhe>, n: nat)
    requires HEAP0 + n <= |s|
  {
    forall i, j :: HEAP0 <= i < j < HEAP0 + n ==> s[i].w != s[j].w
  }

  /** Seats the entry past the first i. */
  method ReheapStep(heap: array<Anhe>, n: nat, i: nat)
    requires HEAP0 + n <= heap.Length && i < n && Distinct(heap[..], n) && Seated(heap[..], i)
    modifies heap, Sitting(heap[..], n)`active
    ensures heap[..] == Up(old(heap[..]), i + HEAP0)
    ensures Sitting(heap[..], n) == old(Sitting(heap[..], n)) && Distinct(heap[..], n) && Seated(heap[..], i + 1)
  {
    UpKeepsSitting(heap[..], n, i + HEAP0);
    assert SeatedBut(heap[..], i + 1, i + HEAP0);
    UpHeap(heap, i + HEAP0, i + 1);
  }

  method Reheap(heap: array<Anhe>, n: nat)
    requires HEAP0 + n <= heap.Length && Distinct(heap[..], n)
    modifies heap, Sitting(heap[..], n)`active
    ensures heap[..] == Reheaped(old(heap[..]), 0, n)
    ensures Sitting(heap[..], n) == old(Sitting(heap[..], n)) && Seated(heap[..], n)
  {
    for i := 0 to n
      invariant Reheaped(heap[..], i, n) == Reheaped(old(heap[..]), 0, n)
      invariant Sitting(heap[..], n) == old(Sitting(heap[..], n)) && Distinct(heap[..], n) && Seated(heap[..], i)
    {
      ReheapStep(heap, n, i);
    }
  }

  lemma {:induction false} UpKeepsSitting(s: seq<Anhe>, n: nat, k: nat)
    requires HEAP0 <= k < HEAP0 + n <= |s| && Distinct(s, n)
    ensures Sitting(Up(s, k), n) == Sitting(s, n) && Distinct(Up(s, k), n)
    decreases k
  {
    var p := Parent(k);
    if p != k && s[p].at > s[k].at {
      SwapKeepsSitting(s, n, k, p);
      UpKeepsSitting(Swap(s, k, p), n, p);
    }
  }
}
