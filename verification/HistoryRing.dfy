/** The history ring: the window it keeps, its writer and reader alone, and both as seqlock steps. */
module HistoryRing {
  import opened Options
  import opened Seqlock

  // ------------------------------------------------------------------ the window of a ring

  /** The entries in chronological order: from slot 0 until the ring is full, then from the head. */
  function Window<T>(entries: seq<T>, head: nat, count: nat): (w: seq<T>)
    requires |entries| > 0 && count <= |entries|
    ensures |w| == count
  {
    var start := if count < |entries| then 0 else head;
    seq(count, i requires 0 <= i < count => entries[(start + i) % |entries|])
  }

  ghost predicate RingOk<T>(entries: seq<T>, head: nat, count: nat) {
    && |entries| > 0 && head < |entries| && count <= |entries|
    && (count < |entries| ==> head == count)
  }

  function LastN<T>(s: seq<T>, n: nat): seq<T> {
    if |s| <= n then s else s[|s| - n..]
  }

  /** The slot i places after start, going round. */
  function Slot(start: nat, i: nat, cap: nat): nat {
    if start + i < cap then start + i else start + i - cap
  }

  lemma ModShift(start: nat, i: nat, cap: nat)
    requires start < cap && i < cap
    ensures (start + i) % cap == Slot(start, i, cap) < cap
  {
  }

  lemma NextHead(head: nat, cap: nat)
    requires head < cap
    ensures (head + 1) % cap == if head + 1 < cap then head + 1 else 0
  {
    if head + 1 < cap {
      ModShift(head, 1, cap);
    } else {
      assert cap % cap == 0;
    }
  }

  lemma WindowAt<T>(entries: seq<T>, head: nat, count: nat, i: nat)
    requires |entries| > 0 && i < count <= |entries| && head < |entries|
    ensures var start := if count < |entries| then 0 else head;
            && Slot(start, i, |entries|) < |entries|
            && Window(entries, head, count)[i] == entries[Slot(start, i, |entries|)]
  {
    ModShift(if count < |entries| then 0 else head, i, |entries|);
  }

  /** While there is room the new entry joins at the end. */
  lemma SlidesFilling<T>(entries: seq<T>, head: nat, pt: T)
    requires head < |entries|
    ensures var e, h := entries[head := pt], (head + 1) % |entries|;
            RingOk(e, h, head + 1) && Window(e, h, head + 1) == Window(entries, head, head) + [pt]
  {
    var e, h := entries[head := pt], (head + 1) % |entries|;
    NextHead(head, |entries|);
    forall i | 0 <= i < head + 1
      ensures Window(e, h, head + 1)[i] == (Window(entries, head, head) + [pt])[i]
    {
      WindowAt(e, h, head + 1, i);
      if i < head {
        WindowAt(entries, head, head, i);
      }
    }
  }

  /** In a full ring it takes the oldest entry's slot. */
  lemma SlidesFull<T>(entries: seq<T>, head: nat, pt: T)
    requires head < |entries|
    ensures var e, h := entries[head := pt], (head + 1) % |entries|;
            && RingOk(e, h, |entries|)
            && Window(e, h, |entries|) == Window(entries, head, |entries|)[1..] + [pt]
  {
    var cap := |entries|;
    var e, h := entries[head := pt], (head + 1) % cap;
    NextHead(head, cap);
    forall i | 0 <= i < cap
      ensures Window(e, h, cap)[i] == (Window(entries, head, cap)[1..] + [pt])[i]
    {
      WindowAt(e, h, cap, i);
      if i + 1 < cap {
        WindowAt(entries, head, cap, i + 1);
      }
    }
  }

  /** One append keeps exactly the newest entries, at most as many as there are slots. */
  lemma AppendSlides<T>(entries: seq<T>, head: nat, count: nat, pt: T)
    requires RingOk(entries, head, count)
    ensures var cap := |entries|;
            var (e, h, c) := (entries[head := pt], (head + 1) % cap, if count < cap then count + 1 else count);
            RingOk(e, h, c) && Window(e, h, c) == LastN(Window(entries, head, count) + [pt], cap)
  {
    if count < |entries| {
      SlidesFilling(entries, head, pt);
    } else {
      SlidesFull(entries, head, pt);
      DropFirst(Window(entries, head, count), pt);
    }
  }

  lemma DropFirst<T>(w: seq<T>, pt: T)
    requires w != []
    ensures LastN(w + [pt], |w|) == w[1..] + [pt]
  {
  }

  lemma LastNCompose<T>(s: seq<T>, pt: T, n: nat)
    requires n > 0
    ensures LastN(LastN(s, n) + [pt], n) == LastN(s + [pt], n)
  {
  }

  // ------------------------------------------------------------------ the structure on its own

  /** A ring that holds the last points of a history holds the last points of the longer history. */
  lemma KeepsLastN<T>(entries: seq<T>, head: nat, count: nat, history: seq<T>, pt: T)
    requires RingOk(entries, head, count) && Window(entries, head, count) == LastN(history, |entries|)
    ensures var cap := |entries|;
            var (e, h, c) := (entries[head := pt], (head + 1) % cap, if count < cap then count + 1 else count);
            RingOk(e, h, c) && Window(e, h, c) == LastN(history + [pt], cap)
  {
    AppendSlides(entries, head, count, pt);
    LastNCompose(history, pt, |entries|);
  }

  class HistoryRingBuffer<T(0)> {
    var version: nat
    var head: nat
    var count: nat
    const entries: array<T>
    ghost var appended: seq<T>

    ghost predicate Valid()
      reads this, entries
    {
      && version % 2 == 0
      && RingOk(entries[..], head, count)
      && Window(entries[..], head, count) == LastN(appended, entries.Length)
    }

    constructor (capacity: nat)
      requires capacity > 0
      ensures Valid() && fresh(entries) && entries.Length == capacity && appended == []
    {
      version, head, count := 0, 0, 0;
      entries := new T[capacity];
      appended := [];
    }

    /** The ring always holds the last min(n, capacity) of the n appended points. */
    method Append(pt: T)
      requires Valid()
      modifies this, entries
      ensures Valid() && appended == old(appended) + [pt] && version == old(version) + 2
    {
      ghost var slots := entries[..];
      KeepsLastN(slots, head, count, appended, pt);
      var ver := version;
      version := ver + 1;
      var idx := head;
      entries[idx] := pt;
      head := (idx + 1) % entries.Length;
      if count < entries.Length { count := count + 1; }
      assert entries[..] == slots[idx := pt];
      appended := appended + [pt];
      version := ver + 2;
    }

    /** Undisturbed, a snapshot copies the oldest min(count, max) points in order at the first try. */
    method ReadSnapshot(out: array<T>, max: nat) returns (ok: bool, n: nat)
      requires Valid() && out.Length >= max && out != entries
      modifies out
      ensures ok <==> max > 0
      ensures ok ==> n == (if count < max then count else max) && out[..n] == LastN(appended, entries.Length)[..n]
      ensures Valid()
    {
      n := 0;
      if max == 0 { return false, 0; }
      for retry := 0 to 5
        invariant retry == 0
        invariant Valid() && Window(entries[..], head, count) == LastN(appended, entries.Length)
      {
        var v1 := version;
        if v1 % 2 == 1 { continue; }
        var c := if count < max then count else max;
        var h := head;
        var start := if count < entries.Length then 0 else h;
        for i := 0 to c
          invariant Valid() && forall k :: 0 <= k < i ==> out[k] == Window(entries[..], head, count)[k]
        {
          out[i] := entries[(start + i) % entries.Length];
        }
        n := c;
        var v2 := version;
        if v1 == v2 { return true, n; }
      }
      return false, n;
    }
  }

  // ------------------------------------------------------------------ the structure under interference

  datatype Word = Head | Count | Cell(slot: nat, part: nat)

  /** The capacity in points and the number of words in a point. */
  datatype Shape = Shape(cap: nat, width: nat)

  type Point = seq<int>

  function CellWrites(sh: Shape, idx: nat, pt: Point): seq<Write<Word, int>>
    requires |pt| == sh.width
  {
    seq(sh.width, w requires 0 <= w < sh.width => Write(Cell(idx, w), pt[w]))
  }

  function Nat(x: int): nat { if x < 0 then 0 else x }

  function Fetch(mem: Memory<Word, int>, a: Word): nat {
    if a in mem then Nat(mem[a]) else 0
  }

  /** The words an append stores between its two version updates. */
  function AppendPlan(sh: Shape, mem: Memory<Word, int>, pt: Point): seq<Write<Word, int>>
    requires sh.cap > 0
  {
    if |pt| != sh.width then []
    else
      var idx, n := Fetch(mem, Head), Fetch(mem, Count);
      CellWrites(sh, idx, pt) + [Write(Head, (idx + 1) % sh.cap)] + (if n < sh.cap then [Write(Count, n + 1)] else [])
  }

  /** The copy loop: the count, the head, the count again, then cell after cell from the start slot. */
  function SnapshotNext(sh: Shape, max: nat, log: seq<Write<Word, int>>): Option<Word>
    requires sh.cap > 0 && sh.width > 0
  {
    if |log| == 0 then Some(Count)
    else if |log| == 1 then Some(Head)
    else if |log| == 2 then Some(Count)
    else
      var c := if Nat(log[0].value) < max then Nat(log[0].value) else max;
      var start := if Nat(log[2].value) < sh.cap then 0 else Nat(log[1].value);
      var j := |log| - 3;
      if j < c * sh.width then Some(Cell((start + j / sh.width) % sh.cap, j % sh.width)) else None
  }

  function RingConfig(sh: Shape, max: nat, base: nat): Config<Word, int, Point>
    requires sh.cap > 0 && sh.width > 0
  {
    Config((mem, pt) => AppendPlan(sh, mem, pt), log => SnapshotNext(sh, max, log), 5, base)
  }

  /** Every word the reader ever asks for exists, whatever mixture of words it has seen so far. */
  lemma SnapshotStaysInBounds(sh: Shape, max: nat, log: seq<Write<Word, int>>)
    requires sh.cap > 0 && sh.width > 0
    ensures match SnapshotNext(sh, max, log)
            case Some(Cell(slot, part)) => slot < sh.cap && part < sh.width && (|log| - 3) / sh.width < max
            case _ => true
  {
    if |log| >= 3 {
      var c := if Nat(log[0].value) < max then Nat(log[0].value) else max;
      QuotientBelow(|log| - 3, c, sh.width);
    }
  }

  lemma QuotientBelow(j: nat, c: nat, w: nat)
    requires w > 0
    ensures j < c * w ==> j / w < c
  {
    assert j == (j / w) * w + j % w;
    if j / w >= c {
      MulLe(c, j / w, w);
    }
  }

  lemma MulLe(a: nat, b: nat, w: nat)
    requires a <= b
    ensures a * w <= b * w
  {
  }

  function CellAt(sh: Shape, mem: Memory<Word, int>, slot: nat): Point {
    seq(sh.width, w requires 0 <= w < sh.width => if Cell(slot, w) in mem then mem[Cell(slot, w)] else 0)
  }

  function CellsOf(sh: Shape, mem: Memory<Word, int>): (es: seq<Point>)
    ensures |es| == sh.cap
  {
    seq(sh.cap, i requires 0 <= i < sh.cap => CellAt(sh, mem, i))
  }

  ghost predicate MemOk(sh: Shape, mem: Memory<Word, int>) {
    && Head in mem && mem[Head] >= 0 && Count in mem && mem[Count] >= 0
    && RingOk(CellsOf(sh, mem), mem[Head], mem[Count])
  }

  function WindowOf(sh: Shape, mem: Memory<Word, int>): seq<Point>
    requires MemOk(sh, mem)
  {
    Window(CellsOf(sh, mem), mem[Head], mem[Count])
  }

  lemma {:induction false} ApplyCells(sh: Shape, mem: Memory<Word, int>, idx: nat, pt: Point, k: nat)
    requires |pt| == sh.width && k <= sh.width
    ensures var m := Apply(mem, CellWrites(sh, idx, pt)[..k]);
            && (forall a: Word :: (a.Cell? && a.slot == idx && a.part < k) ==> a in m && m[a] == pt[a.part])
            && (forall a: Word :: !(a.Cell? && a.slot == idx && a.part < k) ==>
                (a in m <==> a in mem) && (a in mem ==> m[a] == mem[a]))
  {
    if k > 0 {
      ApplyCells(sh, mem, idx, pt, k - 1);
      assert CellWrites(sh, idx, pt)[..k][..k - 1] == CellWrites(sh, idx, pt)[..k - 1];
    }
  }

  lemma {:induction false} ApplyConcat<A, W>(mem: Memory<A, W>, xs: seq<Write<A, W>>, ys: seq<Write<A, W>>)
    ensures Apply(mem, xs + ys) == Apply(Apply(mem, xs), ys)
  {
    if ys == [] {
      assert xs + ys == xs;
    } else {
      assert (xs + ys)[..|xs + ys| - 1] == xs + ys[..|ys| - 1];
      ApplyConcat(mem, xs, ys[..|ys| - 1]);
    }
  }

  lemma ApplyOne<A, W>(mem: Memory<A, W>, w: Write<A, W>)
    ensures Apply(mem, [w]) == mem[w.addr := w.value]
  {
  }

  /** What the writes of an append leave in each word. */
  lemma AppendWords(sh: Shape, mem: Memory<Word, int>, pt: Point)
    requires sh.cap > 0 && |pt| == sh.width && Head in mem && Count in mem && mem[Head] >= 0 && mem[Count] >= 0
    ensures var m, idx := Apply(mem, AppendPlan(sh, mem, pt)), mem[Head];
            && Head in m && m[Head] == (idx + 1) % sh.cap
            && Count in m && m[Count] == (if mem[Count] < sh.cap then mem[Count] + 1 else mem[Count])
            && (forall a: Word :: a.Cell? && a.slot == idx && a.part < sh.width ==> a in m && m[a] == pt[a.part])
            && (forall a: Word :: a.Cell? && a.slot != idx ==> (a in m <==> a in mem) && (a in mem ==> m[a] == mem[a]))
  {
    var idx, n := Fetch(mem, Head), Fetch(mem, Count);
    var cells, headWrite := CellWrites(sh, idx, pt), Write(Head, (idx + 1) % sh.cap);
    var tail := if n < sh.cap then [Write(Count, n + 1)] else [];
    assert cells[..sh.width] == cells;
    ApplyCells(sh, mem, idx, pt, sh.width);
    ApplyConcat(mem, cells + [headWrite], tail);
    ApplyConcat(mem, cells, [headWrite]);
    ApplyOne(Apply(mem, cells), headWrite);
    if n < sh.cap {
      ApplyOne(Apply(mem, cells + [headWrite]), tail[0]);
    } else {
      assert Apply(Apply(mem, cells + [headWrite]), tail) == Apply(mem, cells + [headWrite]);
    }
  }

  lemma AppendCells(sh: Shape, mem: Memory<Word, int>, pt: Point)
    requires sh.cap > 0 && |pt| == sh.width && Head in mem && Count in mem && 0 <= mem[Head] < sh.cap && mem[Count] >= 0
    ensures CellsOf(sh, Apply(mem, AppendPlan(sh, mem, pt))) == CellsOf(sh, mem)[mem[Head] := pt]
  {
    var m, idx := Apply(mem, AppendPlan(sh, mem, pt)), mem[Head];
    AppendWords(sh, mem, pt);
    forall i | 0 <= i < sh.cap
      ensures CellAt(sh, m, i) == if i == idx then pt else CellAt(sh, mem, i)
    {
    }
  }

  /** A committed append slides the window of the committed memory. */
  lemma AppendCommit(sh: Shape, mem: Memory<Word, int>, pt: Point)
    requires sh.cap > 0 && |pt| == sh.width && MemOk(sh, mem)
    ensures var m := Apply(mem, AppendPlan(sh, mem, pt));
            MemOk(sh, m) && WindowOf(sh, m) == LastN(WindowOf(sh, mem) + [pt], sh.cap)
  {
    AppendWords(sh, mem, pt);
    AppendCells(sh, mem, pt);
    SlidesWhere(sh, mem, Apply(mem, AppendPlan(sh, mem, pt)), pt);
  }

  /** A memory with the appended point at the head, and head and count moved on, shows the window slid. */
  lemma SlidesWhere(sh: Shape, mem: Memory<Word, int>, m: Memory<Word, int>, pt: Point)
    requires sh.cap > 0 && MemOk(sh, mem) && CellsOf(sh, m) == CellsOf(sh, mem)[mem[Head] := pt]
    requires Head in m && m[Head] == (mem[Head] + 1) % sh.cap
    requires Count in m && m[Count] == (if mem[Count] < sh.cap then mem[Count] + 1 else mem[Count])
    ensures MemOk(sh, m) && WindowOf(sh, m) == LastN(WindowOf(sh, mem) + [pt], sh.cap)
  {
    AppendSlides(CellsOf(sh, mem), mem[Head], mem[Count], pt);
  }

  ghost predicate AllPoints(sh: Shape, ops: seq<Point>) {
    forall i :: 0 <= i < |ops| ==> |ops[i]| == sh.width
  }

  lemma CommitStep(sh: Shape, max: nat, base: nat, s: State<Word, int, Point>, k: nat)
    requires sh.cap > 0 && sh.width > 0 && HistoryOk(RingConfig(sh, max, base), s) && k < |s.ops|
    ensures s.committed[k + 1] == Apply(s.committed[k], AppendPlan(sh, s.committed[k], s.ops[k]))
  {
  }

  lemma SlideOnce(sh: Shape, before: Memory<Word, int>, after: Memory<Word, int>, pts: seq<Point>, pt: Point)
    requires sh.cap > 0 && |pt| == sh.width && MemOk(sh, before) && WindowOf(sh, before) == LastN(pts, sh.cap)
    requires after == Apply(before, AppendPlan(sh, before, pt))
    ensures MemOk(sh, after) && WindowOf(sh, after) == LastN(pts + [pt], sh.cap)
  {
    AppendCommit(sh, before, pt);
    LastNCompose(pts, pt, sh.cap);
  }

  lemma SlideCommit(sh: Shape, before: Memory<Word, int>, after: Memory<Word, int>, ops: seq<Point>, k: nat)
    requires sh.cap > 0 && k < |ops| && |ops[k]| == sh.width
    requires MemOk(sh, before) && WindowOf(sh, before) == LastN(ops[..k], sh.cap)
    requires after == Apply(before, AppendPlan(sh, before, ops[k]))
    ensures MemOk(sh, after) && WindowOf(sh, after) == LastN(ops[..k + 1], sh.cap)
  {
    assert ops[..k + 1] == ops[..k] + [ops[k]];
    SlideOnce(sh, before, after, ops[..k], ops[k]);
  }

  /** After k committed appends to an empty ring the memory holds the last min(k, capacity) points. */
  lemma {:induction false} CommitsHoldLastPoints(sh: Shape, max: nat, base: nat, s: State<Word, int, Point>, k: nat)
    requires sh.cap > 0 && sh.width > 0
    requires HistoryOk(RingConfig(sh, max, base), s) && k < |s.committed| && AllPoints(sh, s.ops)
    requires MemOk(sh, s.committed[0]) && s.committed[0][Count] == 0
    ensures MemOk(sh, s.committed[k]) && WindowOf(sh, s.committed[k]) == LastN(s.ops[..k], sh.cap)
  {
    if k == 0 {
      assert s.ops[..0] == [];
    } else {
      CommitsHoldLastPoints(sh, max, base, s, k - 1);
      CommitStep(sh, max, base, s, k - 1);
      SlideCommit(sh, s.committed[k - 1], s.committed[k], s.ops, k - 1);
    }
  }

  /** The points a finished log delivers to the caller. */
  function Delivered(sh: Shape, log: seq<Write<Word, int>>): seq<Point>
    requires sh.width > 0 && |log| >= 3
  {
    var c := (|log| - 3) / sh.width;
    seq(c, i requires 0 <= i < c => seq(sh.width, w requires 0 <= w < sh.width =>
      if 3 + i * sh.width + w < |log| then log[3 + i * sh.width + w].value else 0))
  }

  lemma MulDiv(i: nat, w: nat, width: nat)
    requires w < width
    ensures (i * width + w) / width == i && (i * width + w) % width == w
  {
    var x := i * width + w;
    assert x == (x / width) * width + x % width;
    if x / width < i { MulLe(x / width + 1, i, width); }
    if x / width > i { MulLe(i + 1, x / width, width); }
  }

  function Start(sh: Shape, log: seq<Write<Word, int>>): nat
    requires |log| >= 3
  {
    if Nat(log[2].value) < sh.cap then 0 else Nat(log[1].value)
  }

  function Limit(max: nat, log: seq<Write<Word, int>>): nat
    requires |log| >= 1
  {
    if Nat(log[0].value) < max then Nat(log[0].value) else max
  }

  lemma DeliveredWord(sh: Shape, max: nat, log: seq<Write<Word, int>>, i: nat, w: nat)
    requires sh.cap > 0 && sh.width > 0 && |log| >= 3 && |log| == 3 + Limit(max, log) * sh.width
    requires Follows(l => SnapshotNext(sh, max, l), log) && i < Limit(max, log) && w < sh.width
    ensures 3 + i * sh.width + w < |log|
    ensures log[3 + i * sh.width + w].addr == Cell((Start(sh, log) + i) % sh.cap, w)
  {
    var j := 3 + i * sh.width + w;
    MulLe(i + 1, Limit(max, log), sh.width);
    MulDiv(i, w, sh.width);
    var l := log[..j];
    assert SnapshotNext(sh, max, l) == Some(log[j].addr);
    assert l[0] == log[0] && l[1] == log[1] && l[2] == log[2];
  }

  lemma DeliveredPoint(sh: Shape, max: nat, log: seq<Write<Word, int>>, mem: Memory<Word, int>, i: nat)
    requires sh.cap > 0 && sh.width > 0 && |log| >= 3 && |log| == 3 + Limit(max, log) * sh.width
    requires Follows(l => SnapshotNext(sh, max, l), log) && Agrees(log, mem) && i < Limit(max, log)
    ensures i < |Delivered(sh, log)|
    ensures Delivered(sh, log)[i] == CellAt(sh, mem, (Start(sh, log) + i) % sh.cap)
  {
    MulDiv(Limit(max, log), 0, sh.width);
    forall w | 0 <= w < sh.width
      ensures Delivered(sh, log)[i][w] == CellAt(sh, mem, (Start(sh, log) + i) % sh.cap)[w]
    {
      DeliveredWord(sh, max, log, i, w);
    }
  }

  lemma FirstWords(sh: Shape, max: nat, log: seq<Write<Word, int>>, mem: Memory<Word, int>)
    requires sh.cap > 0 && sh.width > 0 && MemOk(sh, mem) && Agrees(log, mem)
    requires Follows(l => SnapshotNext(sh, max, l), log) && SnapshotNext(sh, max, log) == None
    ensures |log| >= 3 && log[0].value == mem[Count] && log[1].value == mem[Head] && log[2].value == mem[Count]
  {
  }

  /** A log that followed the program and agrees with one memory delivers that memory's oldest points. */
  lemma DeliveredIsWindow(sh: Shape, max: nat, log: seq<Write<Word, int>>, mem: Memory<Word, int>)
    requires sh.cap > 0 && sh.width > 0 && MemOk(sh, mem) && Agrees(log, mem)
    requires Follows(l => SnapshotNext(sh, max, l), log) && SnapshotNext(sh, max, log) == None
    ensures |log| >= 3
    ensures var c := if mem[Count] < max then mem[Count] else max;
            c <= |WindowOf(sh, mem)| && Delivered(sh, log) == WindowOf(sh, mem)[..c]
  {
    FirstWords(sh, max, log, mem);
    var c := Limit(max, log);
    LogLength(sh, max, log, c);
    MulDiv(c, 0, sh.width);
    var d, win := Delivered(sh, log), WindowOf(sh, mem);
    forall i | 0 <= i < c ensures d[i] == win[i] {
      var slot := (Start(sh, log) + i) % sh.cap;
      assert win[i] == CellAt(sh, mem, slot);
      DeliveredPoint(sh, max, log, mem, i);
    }
  }

  lemma LogLength(sh: Shape, max: nat, log: seq<Write<Word, int>>, c: nat)
    requires sh.cap > 0 && sh.width > 0 && |log| >= 3
    requires c == if Nat(log[0].value) < max then Nat(log[0].value) else max
    requires Follows(l => SnapshotNext(sh, max, l), log) && SnapshotNext(sh, max, log) == None
    ensures |log| == 3 + c * sh.width
  {
    if |log| > 3 {
      var l := log[..|log| - 1];
      assert SnapshotNext(sh, max, l) == Some(log[|log| - 1].addr);
      assert l != [] ==> l[0] == log[0];
    }
  }

  /**
   Under every interleaving, a snapshot that succeeds returns, oldest first, the first
   min(count, max) points of one committed window: the last min(k, capacity) of the first k appends,
   for a k between the commits seen at the start and at the return of the call.
   */
  lemma SnapshotIsOneWindow(sh: Shape, max: nat, base: nat, run: seq<State<Word, int, Point>>, i: nat, r: nat)
      returns (k: nat)
    requires sh.cap > 0 && sh.width > 0
    requires IsRun(RingConfig(sh, max, base), run) && i < |run| && AllPoints(sh, run[i].ops)
    requires MemOk(sh, run[0].mem) && run[0].mem[Count] == 0
    requires r < |run[i].readers| && run[i].readers[r].Succeeded?
    ensures var f := run[i].readers[r];
            && f.since <= k <= f.until && k <= |run[i].ops| && |f.log| >= 3
            && var w := LastN(run[i].ops[..k], sh.cap);
               Delivered(sh, f.log) == if |w| < max then w else w[..max]
  {
    var cfg := RingConfig(sh, max, base);
    k := SuccessfulReadIsOneCommit(cfg, run, i, r);
    RunKeepsInv(cfg, run, i);
    FirstCommitStays(cfg, run, i);
    CommitsHoldLastPoints(sh, max, base, run[i], k);
    var log := run[i].readers[r].log;
    assert Follows(l => SnapshotNext(sh, max, l), log) by {
      forall j | 0 <= j < |log| ensures SnapshotNext(sh, max, log[..j]) == Some(log[j].addr) {
        assert cfg.next(log[..j]) == Some(log[j].addr);
      }
    }
    DeliveredIsWindow(sh, max, log, run[i].committed[k]);
  }

  lemma {:induction false} FirstCommitStays<A, W, Op>(cfg: Config<A, W, Op>, run: seq<State<A, W, Op>>, i: nat)
    requires IsRun(cfg, run) && i < |run|
    ensures run[i].committed != [] && run[i].committed[0] == run[0].mem
  {
    if i > 0 {
      FirstCommitStays(cfg, run, i - 1);
      assert Next(cfg, run[i - 1], run[i]);
    }
  }
}
