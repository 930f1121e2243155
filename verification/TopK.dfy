/**
 The streaming top-K selector: a bounded binary heap whose root is the worst item kept. A new item
 enters while there is room, or by replacing the root when it beats it.
 */
module TopK {
  ghost predicate StrictWeakOrder<T(!new)>(beats: (T, T) -> bool) {
    && (forall a, b :: beats(a, b) ==> !beats(b, a))
    && (forall a, b, c :: beats(a, c) ==> beats(a, b) || beats(b, c))
  }

  lemma Irreflexive<T(!new)>(beats: (T, T) -> bool, a: T)
    requires StrictWeakOrder(beats)
    ensures !beats(a, a)
  {
  }

  lemma Through<T(!new)>(beats: (T, T) -> bool, a: T, b: T, c: T)
    requires StrictWeakOrder(beats) && !beats(a, b) && !beats(b, c)
    ensures !beats(a, c)
  {
  }

  function Parent(i: nat): nat
    requires i > 0
  {
    (i - 1) / 2
  }

  /** The heap edge above i: the parent does not beat the child. */
  predicate Edge<T>(beats: (T, T) -> bool, s: seq<T>, i: nat)
    requires 0 < i < |s|
  {
    !beats(s[Parent(i)], s[i])
  }

  ghost predicate IsHeap<T>(beats: (T, T) -> bool, s: seq<T>) {
    forall i :: 0 < i < |s| ==> Edge(beats, s, i)
  }

  lemma {:induction false} RootIsWorst<T(!new)>(beats: (T, T) -> bool, s: seq<T>, i: nat)
    requires StrictWeakOrder(beats) && IsHeap(beats, s) && i < |s|
    ensures !beats(s[0], s[i])
    decreases i
  {
    if i > 0 {
      assert Edge(beats, s, i);
      RootIsWorst(beats, s, Parent(i));
    } else {
      Irreflexive(beats, s[0]);
    }
  }

  function Swap<T>(s: seq<T>, i: nat, j: nat): (r: seq<T>)
    requires i < |s| && j < |s|
    ensures |r| == |s| && r[i] == s[j] && r[j] == s[i]
    ensures forall k :: 0 <= k < |s| && k != i && k != j ==> r[k] == s[k]
    ensures multiset(r) == multiset(s)
  {
    s[i := s[j]][j := s[i]]
  }

  // ------------------------------------------------------------------ sifting

  /** Heap but for the edge above i, whose children still respect i's parent. */
  ghost predicate HeapBelow<T>(beats: (T, T) -> bool, s: seq<T>, i: nat) {
    && (forall j :: 0 < j < |s| && j != i ==> Edge(beats, s, j))
    && (forall j :: 0 < i < j < |s| && Parent(j) == i ==> !beats(s[Parent(i)], s[j]))
  }

  /** Heap but for the edges to i's children, who still respect i's parent. */
  ghost predicate HeapAbove<T>(beats: (T, T) -> bool, s: seq<T>, i: nat) {
    && (forall j :: 0 < j < |s| && Parent(j) != i ==> Edge(beats, s, j))
    && (forall j :: 0 < i < j < |s| && Parent(j) == i ==> !beats(s[Parent(i)], s[j]))
  }

  lemma LiftStep<T(!new)>(beats: (T, T) -> bool, s: seq<T>, i: nat)
    requires StrictWeakOrder(beats) && 0 < i < |s| && HeapBelow(beats, s, i)
    requires beats(s[Parent(i)], s[i])
    ensures HeapBelow(beats, Swap(s, i, Parent(i)), Parent(i))
  {
    var p := Parent(i);
    var t := Swap(s, i, p);
    forall j | 0 < j < |s| && j != p
      ensures Edge(beats, t, j)
    {
      if j != i {
        assert Edge(beats, s, j);
      }
    }
    forall j | 0 < p < j < |s| && Parent(j) == p
      ensures !beats(t[Parent(p)], t[j])
    {
      assert Edge(beats, s, p);
      if j != i {
        assert Edge(beats, s, j);
      }
    }
  }

  lemma SinkStep<T(!new)>(beats: (T, T) -> bool, s: seq<T>, i: nat, c: nat)
    requires StrictWeakOrder(beats) && HeapAbove(beats, s, i) && WorseChild(beats, s, i, c) && beats(s[i], s[c])
    ensures HeapAbove(beats, Swap(s, i, c), c)
  {
    var t := Swap(s, i, c);
    forall j | 0 < j < |s| && Parent(j) != c
      ensures Edge(beats, t, j)
    {
      if j != i && Parent(j) != i {
        assert Edge(beats, s, j);
      }
    }
    forall j | 0 < c < j < |s| && Parent(j) == c
      ensures !beats(t[Parent(c)], t[j])
    {
      assert Edge(beats, s, j);
    }
  }

  /** std::push_heap: lift the last item until its parent no longer beats it. */
  method SiftUp<T(!new)>(beats: (T, T) -> bool, s: seq<T>) returns (r: seq<T>)
    requires StrictWeakOrder(beats) && s != [] && IsHeap(beats, s[..|s| - 1])
    ensures IsHeap(beats, r) && multiset(r) == multiset(s)
  {
    r := s;
    var i := |s| - 1;
    forall j | 0 < j < |s| && j != i
      ensures Edge(beats, s, j)
    {
      assert Edge(beats, s[..|s| - 1], j);
    }
    while i > 0 && beats(r[Parent(i)], r[i])
      invariant 0 <= i < |r| == |s|
      invariant HeapBelow(beats, r, i)
      invariant multiset(r) == multiset(s)
    {
      LiftStep(beats, r, i);
      r := Swap(r, i, Parent(i));
      i := Parent(i);
    }
    forall j | 0 < j < |r|
      ensures Edge(beats, r, j)
    {
    }
  }

  /** c is a child of i that beats no child of i. */
  ghost predicate WorseChild<T>(beats: (T, T) -> bool, s: seq<T>, i: nat, c: nat) {
    && i < c < |s| && Parent(c) == i
    && forall j :: i < j < |s| && Parent(j) == i ==> !beats(s[c], s[j])
  }

  method SelectWorseChild<T(!new)>(beats: (T, T) -> bool, s: seq<T>, i: nat) returns (c: nat)
    requires StrictWeakOrder(beats) && 2 * i + 1 < |s|
    ensures WorseChild(beats, s, i, c)
  {
    c := 2 * i + 1;
    if c + 1 < |s| && beats(s[c], s[c + 1]) {
      c := c + 1;
    }
    Irreflexive(beats, s[c]);
    forall j | i < j < |s| && Parent(j) == i
      ensures !beats(s[c], s[j])
    {
      assert j == 2 * i + 1 || j == 2 * i + 2;
    }
  }

  /** Where the parent beats neither child the heap is whole. */
  lemma Settled<T(!new)>(beats: (T, T) -> bool, s: seq<T>, i: nat, c: nat)
    requires StrictWeakOrder(beats) && HeapAbove(beats, s, i) && WorseChild(beats, s, i, c) && !beats(s[i], s[c])
    ensures IsHeap(beats, s)
  {
    forall j | 0 < j < |s|
      ensures Edge(beats, s, j)
    {
      if Parent(j) == i {
        Through(beats, s[i], s[c], s[j]);
      }
    }
  }

  lemma Childless<T>(beats: (T, T) -> bool, s: seq<T>, i: nat)
    requires HeapAbove(beats, s, i) && 2 * i + 1 >= |s|
    ensures IsHeap(beats, s)
  {
    forall j | 0 < j < |s|
      ensures Edge(beats, s, j)
    {
      assert Parent(j) != i;
    }
  }

  /** Sink the root towards the worse of its children until it beats neither. */
  method SiftDown<T(!new)>(beats: (T, T) -> bool, s: seq<T>) returns (r: seq<T>)
    requires StrictWeakOrder(beats) && HeapAbove(beats, s, 0)
    ensures IsHeap(beats, r) && multiset(r) == multiset(s)
  {
    r := s;
    var i := 0;
    while 2 * i + 1 < |r|
      invariant |r| == |s| && HeapAbove(beats, r, i)
      invariant multiset(r) == multiset(s)
      decreases |r| - i
    {
      var c := SelectWorseChild(beats, r, i);
      if !beats(r[i], r[c]) {
        Settled(beats, r, i, c);
        return;
      }
      SinkStep(beats, r, i, c);
      r := Swap(r, i, c);
      i := c;
    }
    Childless(beats, r, i);
  }

  /** std::pop_heap: the root moves to the back and the items before it form a heap again. */
  method PopHeap<T(!new)>(beats: (T, T) -> bool, s: seq<T>) returns (r: seq<T>)
    requires StrictWeakOrder(beats) && s != [] && IsHeap(beats, s)
    ensures |r| == |s| && r[|r| - 1] == s[0] && IsHeap(beats, r[..|r| - 1])
    ensures multiset(r) == multiset(s)
  {
    var n := |s| - 1;
    var t := Swap(s, 0, n);
    forall j | 0 < j < n && Parent(j) != 0
      ensures Edge(beats, t[..n], j)
    {
      assert Edge(beats, s, j);
    }
    var front := SiftDown(beats, t[..n]);
    r := front + [s[0]];
    assert t == t[..n] + [s[0]];
    assert |front| == |multiset(front)| == |multiset(t[..n])| == n;
    assert r[..|r| - 1] == front;
  }

  method Append<T(!new)>(beats: (T, T) -> bool, s: seq<T>, item: T) returns (r: seq<T>)
    requires StrictWeakOrder(beats) && IsHeap(beats, s)
    ensures IsHeap(beats, r) && |r| == |s| + 1
    ensures multiset(r) == multiset(s) + multiset{item}
  {
    assert (s + [item])[..|s|] == s;
    r := SiftUp(beats, s + [item]);
    assert |multiset(r)| == |multiset(s + [item])|;
  }

  /** Pop the root to the back, overwrite it there and lift the newcomer. */
  method ReplaceWorst<T(!new)>(beats: (T, T) -> bool, s: seq<T>, item: T) returns (r: seq<T>)
    requires StrictWeakOrder(beats) && IsHeap(beats, s) && s != []
    ensures IsHeap(beats, r) && |r| == |s|
    ensures multiset(r) == multiset(s) - multiset{s[0]} + multiset{item}
  {
    var popped := PopHeap(beats, s);
    var last := |popped| - 1;
    assert popped == popped[..last] + [s[0]];
    assert multiset(s) == multiset(popped[..last]) + multiset{s[0]};
    var filled := popped[last := item];
    assert filled == popped[..last] + [item];
    r := SiftUp(beats, filled);
    assert |multiset(r)| == |multiset(filled)|;
  }

  // ------------------------------------------------------------------ kept and discarded

  ghost predicate NoneBeats<T>(beats: (T, T) -> bool, losers: multiset<T>, kept: multiset<T>) {
    forall d, h :: d in losers && h in kept ==> !beats(d, h)
  }

  lemma RootIsWorstOfAll<T(!new)>(beats: (T, T) -> bool, s: seq<T>)
    requires StrictWeakOrder(beats) && IsHeap(beats, s) && s != []
    ensures NoneBeats(beats, multiset{s[0]}, multiset(s))
  {
    forall h | h in multiset(s)
      ensures !beats(s[0], h)
    {
      var i: nat :| i < |s| && s[i] == h;
      RootIsWorst(beats, s, i);
    }
  }

  /** Trading the worst kept item for one that beats it leaves no loser ahead. */
  lemma ReplaceRoot<T(!new)>(beats: (T, T) -> bool, kept: multiset<T>, losers: multiset<T>, root: T, item: T)
    requires StrictWeakOrder(beats) && NoneBeats(beats, losers, kept)
    requires root in kept && NoneBeats(beats, multiset{root}, kept) && beats(item, root)
    ensures NoneBeats(beats, losers + multiset{root}, kept - multiset{root} + multiset{item})
  {
  }

  lemma RejectItem<T(!new)>(beats: (T, T) -> bool, kept: multiset<T>, losers: multiset<T>, root: T, item: T)
    requires StrictWeakOrder(beats) && NoneBeats(beats, losers, kept)
    requires NoneBeats(beats, multiset{root}, kept) && !beats(item, root)
    ensures NoneBeats(beats, losers + multiset{item}, kept)
  {
  }

  // ------------------------------------------------------------------ sorting

  ghost predicate Sorted<T>(beats: (T, T) -> bool, s: seq<T>) {
    forall i, j :: 0 <= i < j < |s| ==> !beats(s[j], s[i])
  }

  lemma InsertKeepsSorted<T(!new)>(beats: (T, T) -> bool, s: seq<T>, i: nat, x: T)
    requires StrictWeakOrder(beats) && Sorted(beats, s) && i <= |s|
    requires forall j :: 0 <= j < i ==> !beats(x, s[j])
    requires forall j :: i <= j < |s| ==> beats(x, s[j])
    ensures Sorted(beats, s[..i] + [x] + s[i..])
  {
  }

  method Insert<T(!new)>(beats: (T, T) -> bool, s: seq<T>, x: T) returns (r: seq<T>)
    requires StrictWeakOrder(beats) && Sorted(beats, s)
    ensures Sorted(beats, r) && multiset(r) == multiset(s) + multiset{x}
  {
    var i := |s|;
    while i > 0 && beats(x, s[i - 1])
      invariant 0 <= i <= |s|
      invariant forall j :: i <= j < |s| ==> beats(x, s[j])
    {
      i := i - 1;
    }
    forall j | 0 <= j < i
      ensures !beats(x, s[j])
    {
      if j < i - 1 {
        Through(beats, x, s[i - 1], s[j]);
      }
    }
    InsertKeepsSorted(beats, s, i, x);
    assert s == s[..i] + s[i..];
    r := s[..i] + [x] + s[i..];
  }

  /** An insertion sort stands for std::sort. */
  method Sort<T(!new)>(beats: (T, T) -> bool, s: seq<T>) returns (r: seq<T>)
    requires StrictWeakOrder(beats)
    ensures Sorted(beats, r) && multiset(r) == multiset(s)
  {
    r := [];
    for n := 0 to |s|
      invariant Sorted(beats, r) && multiset(r) == multiset(s[..n])
    {
      assert s[..n + 1] == s[..n] + [s[n]];
      r := Insert(beats, r, s[n]);
    }
    assert s[..|s|] == s;
  }

  /** How many items of s beat x. */
  function Ahead<T>(beats: (T, T) -> bool, s: seq<T>, x: T): nat {
    if s == [] then 0 else (if beats(s[0], x) then 1 else 0) + Ahead(beats, s[1..], x)
  }

  lemma {:induction false} AheadAppends<T>(beats: (T, T) -> bool, s: seq<T>, t: seq<T>, x: T)
    ensures Ahead(beats, s + t, x) == Ahead(beats, s, x) + Ahead(beats, t, x)
    decreases |s|
  {
    if s == [] {
      assert s + t == t;
    } else {
      assert (s + t)[1..] == s[1..] + t;
      AheadAppends(beats, s[1..], t, x);
    }
  }

  /** Equal multisets stay equal without one occurrence of an item. */
  lemma DropOne<T>(s: seq<T>, t: seq<T>, i: nat)
    requires s != [] && i < |t| && t[i] == s[0] && multiset(s) == multiset(t)
    ensures multiset(s[1..]) == multiset(t[..i] + t[i + 1..])
  {
    assert s == [s[0]] + s[1..];
    assert t == t[..i] + ([t[i]] + t[i + 1..]);
    assert multiset(s[1..]) == multiset(s) - multiset{s[0]};
    assert multiset(t[..i] + t[i + 1..]) == multiset(t) - multiset{t[i]};
  }

  lemma {:induction false} AheadIsAMultisetFact<T>(beats: (T, T) -> bool, s: seq<T>, t: seq<T>, x: T)
    requires multiset(s) == multiset(t)
    ensures Ahead(beats, s, x) == Ahead(beats, t, x)
    decreases |s|
  {
    if s == [] {
      assert |t| == |multiset(t)| == 0;
    } else {
      assert s[0] in multiset(t);
      var i: nat :| i < |t| && t[i] == s[0];
      DropOne(s, t, i);
      AheadIsAMultisetFact(beats, s[1..], t[..i] + t[i + 1..], x);
      AheadAppends(beats, t[..i], t[i + 1..], x);
      AheadAppends(beats, t[..i], [t[i]] + t[i + 1..], x);
      assert t == t[..i] + ([t[i]] + t[i + 1..]);
      AheadAppends(beats, [t[i]], t[i + 1..], x);
    }
  }

  lemma {:induction false} AheadBounds<T>(beats: (T, T) -> bool, s: seq<T>, x: T)
    ensures Ahead(beats, s, x) <= |s|
    ensures (forall i :: 0 <= i < |s| ==> beats(s[i], x)) ==> Ahead(beats, s, x) == |s|
    ensures (forall i :: 0 <= i < |s| ==> !beats(s[i], x)) ==> Ahead(beats, s, x) == 0
    decreases |s|
  {
    if s != [] {
      AheadBounds(beats, s[1..], x);
    }
  }

  /** Position i is where sorting would put it: nothing before it is beaten by it, nothing after beats it. */
  ghost predicate RankedAt<T>(beats: (T, T) -> bool, s: seq<T>, i: nat)
    requires i < |s|
  {
    && (forall j :: 0 <= j < i ==> !beats(s[i], s[j]))
    && (forall j :: i < j < |s| ==> !beats(s[j], s[i]))
  }

  /** Two arrangements of one multiset agree, up to ties, at a rank where both are sorted. */
  lemma RankIsDetermined<T(!new)>(beats: (T, T) -> bool, s: seq<T>, t: seq<T>, i: nat)
    requires StrictWeakOrder(beats) && i < |s| && i < |t| && RankedAt(beats, s, i) && RankedAt(beats, t, i)
    requires multiset(s) == multiset(t)
    ensures !beats(s[i], t[i])
  {
    if beats(s[i], t[i]) {
      var front := s[..i + 1];
      forall j | 0 <= j < |front|
        ensures beats(front[j], t[i])
      {
        assert j < i ==> !beats(s[i], s[j]);
      }
      AheadBounds(beats, front, t[i]);
      assert s == s[..i + 1] + s[i + 1..];
      AheadAppends(beats, s[..i + 1], s[i + 1..], t[i]);
      Irreflexive(beats, t[i]);
      AheadBounds(beats, t[i..], t[i]);
      AheadBounds(beats, t[..i], t[i]);
      assert t == t[..i] + t[i..];
      AheadAppends(beats, t[..i], t[i..], t[i]);
      AheadIsAMultisetFact(beats, s, t, t[i]);
    }
  }

  lemma {:induction false} Arrange<T>(m: multiset<T>) returns (s: seq<T>)
    ensures multiset(s) == m
  {
    if m == multiset{} {
      s := [];
    } else {
      var x :| x in m;
      var rest := Arrange(m - multiset{x});
      s := [x] + rest;
    }
  }

  /**
   The selector against sorting everything: whatever was pushed, the extracted list is, rank by
   rank and up to ties, the beginning of any full sort of all pushed items.
   */
  lemma KeptIsSortedPrefix<T(!new)>(beats: (T, T) -> bool, kept: seq<T>, losers: multiset<T>, all: seq<T>, i: nat)
    requires StrictWeakOrder(beats) && Sorted(beats, kept) && Sorted(beats, all)
    requires multiset(kept) + losers == multiset(all)
    requires NoneBeats(beats, losers, multiset(kept)) && i < |kept|
    ensures |kept| <= |all| && !beats(kept[i], all[i]) && !beats(all[i], kept[i])
  {
    var rest := Arrange(losers);
    var ranked := kept + rest;
    assert |all| == |multiset(all)| == |multiset(kept)| + |losers|;
    forall j | i < j < |ranked|
      ensures !beats(ranked[j], ranked[i])
    {
      if j >= |kept| {
        assert ranked[j] in multiset(rest) && ranked[i] in multiset(kept);
      }
    }
    assert RankedAt(beats, ranked, i) && RankedAt(beats, all, i);
    RankIsDetermined(beats, ranked, all, i);
    RankIsDetermined(beats, all, ranked, i);
  }

  // ------------------------------------------------------------------ the selector

  class TopKHeap<T(==, !new)> {
    const k: nat
    const beats: (T, T) -> bool
    var heap: seq<T>
    ghost var pushed: seq<T>
    ghost var discarded: multiset<T>

    ghost predicate Valid()
      reads this
    {
      && k > 0 && StrictWeakOrder(beats)
      && IsHeap(beats, heap)
      && |heap| == (if |pushed| < k then |pushed| else k)
      && multiset(heap) + discarded == multiset(pushed)
      && NoneBeats(beats, discarded, multiset(heap))
    }

    constructor (k: nat, beats: (T, T) -> bool)
      requires k > 0 && StrictWeakOrder(beats)
      ensures Valid() && pushed == [] && heap == [] && this.k == k && this.beats == beats
    {
      this.k := k;
      this.beats := beats;
      heap := [];
      pushed := [];
      discarded := multiset{};
    }

    method Push(item: T)
      requires Valid()
      modifies this
      ensures Valid() && pushed == old(pushed) + [item]
      ensures old(discarded) <= discarded
    {
      ghost var kept := multiset(heap);
      assert |kept + discarded| == |multiset(pushed)|;
      assert multiset(pushed + [item]) == multiset(pushed) + multiset{item};
      pushed := pushed + [item];
      if |heap| < k {
        heap := Append(beats, heap, item);
        assert discarded == multiset{};
      } else {
        RootIsWorstOfAll(beats, heap);
        if beats(item, heap[0]) {
          ReplaceRoot(beats, kept, discarded, heap[0], item);
          discarded := discarded + multiset{heap[0]};
          heap := ReplaceWorst(beats, heap, item);
        } else {
          RejectItem(beats, kept, discarded, heap[0], item);
          discarded := discarded + multiset{item};
        }
      }
    }

    method ExtractSorted() returns (res: seq<T>)
      requires Valid()
      ensures Sorted(beats, res) && multiset(res) == multiset(heap)
      ensures |res| == (if |pushed| < k then |pushed| else k)
      ensures forall all, i :: Sorted(beats, all) && multiset(all) == multiset(pushed) && 0 <= i < |res| ==>
        |res| <= |all| && !beats(res[i], all[i]) && !beats(all[i], res[i])
    {
      res := Sort(beats, heap);
      assert |multiset(res)| == |multiset(heap)|;
      forall all, i | Sorted(beats, all) && multiset(all) == multiset(pushed) && 0 <= i < |res|
        ensures |res| <= |all| && !beats(res[i], all[i]) && !beats(all[i], res[i])
      {
        KeptIsSortedPrefix(beats, res, discarded, all, i);
      }
    }
  }
}
