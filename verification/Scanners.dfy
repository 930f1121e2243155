/**
 The 32-byte vector scanners over procfs text against their scalar forms. A comparison of 32 lanes
 gives a mask with one bit a lane, lowest first.
 */
module Scanners {
  type Byte = b: int | 0 <= b < 256

  const SPACE: Byte := 32
  const LANES: nat := 32

  type Mask = m: seq<bool> | |m| == LANES witness seq(LANES, i => false)

  /** The unsigned minimum against a space equals the lane exactly for bytes up to a space. */
  predicate IsBlank(b: Byte) {
    b == if b <= SPACE then b else SPACE
  }

  predicate IsSolid(b: Byte) {
    b > SPACE
  }

  predicate IsSpace(b: Byte) {
    b == SPACE
  }

  // ------------------------------------------------------------------ masks

  function MaskOf(s: seq<Byte>, cur: nat, hit: Byte -> bool): Mask
    requires cur + LANES <= |s|
  {
    seq(LANES, i requires 0 <= i < LANES => hit(s[cur + i]))
  }

  /** Trailing zeros; 32 for the empty mask. */
  function FirstSet(m: seq<bool>): (n: nat)
    ensures n <= |m| && (forall i :: 0 <= i < n ==> !m[i]) && (n < |m| ==> m[n])
  {
    if m == [] || m[0] then 0 else 1 + FirstSet(m[1..])
  }

  function PopCount(m: seq<bool>): nat {
    if m == [] then 0 else PopCount(m[..|m| - 1]) + if m[|m| - 1] then 1 else 0
  }

  /** m & (m - 1) */
  function ClearLowest(m: Mask): Mask {
    if FirstSet(m) < LANES then m[FirstSet(m) := false] else m
  }

  // ------------------------------------------------------------------ scalar scan

  /** The scalar loop: the first position from cur on that hits, or the end. */
  function Scan(s: seq<Byte>, cur: nat, hit: Byte -> bool): (r: nat)
    requires cur <= |s|
    ensures cur <= r <= |s|
    ensures forall i :: cur <= i < r ==> !hit(s[i])
    ensures r < |s| ==> hit(s[r])
    decreases |s| - cur
  {
    if cur == |s| || hit(s[cur]) then cur else Scan(s, cur + 1, hit)
  }

  lemma {:induction false} ScanIs(s: seq<Byte>, cur: nat, hit: Byte -> bool, r: nat)
    requires cur <= r <= |s|
    requires forall i :: cur <= i < r ==> !hit(s[i])
    requires r < |s| ==> hit(s[r])
    ensures Scan(s, cur, hit) == r
    decreases r - cur
  {
  }

  /** One vector step: a hit in the chunk ends the scan at the lowest set bit, none moves past it. */
  lemma ScanChunk(s: seq<Byte>, cur: nat, hit: Byte -> bool)
    requires cur + LANES <= |s|
    ensures var n := FirstSet(MaskOf(s, cur, hit));
            Scan(s, cur, hit) == if n < LANES then cur + n else Scan(s, cur + LANES, hit)
  {
    var m := MaskOf(s, cur, hit);
    var n := FirstSet(m);
    forall i | cur <= i < cur + n
      ensures !hit(s[i])
    {
      assert !m[i - cur];
    }
    ScanIs(s, cur, hit, if n < LANES then cur + n else Scan(s, cur + LANES, hit));
  }

  /** The scanning loop shared by the vector forms: 32 lanes at a time, then byte by byte. */
  method VectorScan(s: seq<Byte>, start: nat, hit: Byte -> bool) returns (cur: nat)
    requires start <= |s|
    ensures cur == Scan(s, start, hit)
  {
    cur := start;
    while cur + LANES <= |s|
      invariant cur <= |s| && Scan(s, cur, hit) == Scan(s, start, hit)
      decreases |s| - cur
    {
      ScanChunk(s, cur, hit);
      var n := FirstSet(MaskOf(s, cur, hit));
      if n < LANES {
        return cur + n;
      }
      cur := cur + LANES;
    }
    while cur < |s| && !hit(s[cur])
      invariant cur <= |s| && Scan(s, cur, hit) == Scan(s, start, hit)
    {
      cur := cur + 1;
    }
  }

  method FindCharVector(s: seq<Byte>, target: Byte) returns (r: nat)
    ensures r == Scan(s, 0, b => b == target)
  {
    r := VectorScan(s, 0, b => b == target);
  }

  method FindCharScalar(s: seq<Byte>, target: Byte) returns (r: nat)
    ensures r == Scan(s, 0, b => b == target)
  {
    r := 0;
    while r < |s|
      invariant r <= |s| && Scan(s, r, b => b == target) == Scan(s, 0, b => b == target)
    {
      if s[r] == target {
        return;
      }
      r := r + 1;
    }
  }

  method SkipWhitespace(s: seq<Byte>, start: nat) returns (cur: nat)
    requires start <= |s|
    ensures cur == Scan(s, start, IsSolid)
  {
    cur := start;
    if cur < |s| && s[cur] > SPACE {
      return;
    }
    // the vector form inverts the mask of blanks
    cur := VectorScan(s, start, (b: Byte) => !IsBlank(b));
    ScanIs(s, start, IsSolid, cur);
  }

  method FindWhitespace(s: seq<Byte>, start: nat) returns (cur: nat)
    requires start <= |s|
    ensures cur == Scan(s, start, b => b <= SPACE)
  {
    cur := VectorScan(s, start, IsBlank);
    ScanIs(s, start, b => b <= SPACE, cur);
  }

  // ------------------------------------------------------------------ skipping tokens

  /** The scalar loop: count times past a token and the blanks behind it. */
  function SkipTokens(s: seq<Byte>, cur: nat, count: nat): (r: nat)
    requires cur <= |s|
    ensures cur <= r <= |s|
    decreases count
  {
    if count == 0 || cur == |s| then cur
    else SkipTokens(s, Scan(s, Scan(s, cur, IsBlank), IsSolid), count - 1)
  }

  method SkipTokensScalar(s: seq<Byte>, start: nat, count: int) returns (cur: nat)
    requires start <= |s|
    ensures cur == if count <= 0 then start else SkipTokens(s, start, count)
  {
    cur := start;
    var left := count;
    while left > 0 && cur < |s|
      invariant cur <= |s|
      invariant left >= 0 ==> SkipTokens(s, cur, left) == SkipTokens(s, start, if count <= 0 then 0 else count)
      invariant left < 0 ==> cur == start && count < 0
    {
      cur := Scan(s, cur, IsBlank);
      cur := Scan(s, cur, IsSolid);
      left := left - 1;
    }
  }

  /** Position of the k-th set bit, counting from zero, by clearing the lower ones. */
  method SelectBit(m: Mask, k: nat) returns (n: nat)
    requires k < PopCount(m)
    ensures n < LANES && m[n] && PopCount(m[..n]) == k
  {
    var left := m;
    ghost var z: nat := 0;
    for i := 0 to k
      invariant z <= LANES && PopCount(m[..z]) == i
      invariant |left| == LANES
      invariant forall j :: 0 <= j < z ==> !left[j]
      invariant forall j :: z <= j < LANES ==> left[j] == m[j]
    {
      NextSet(m, left, z, i, k);
      z := FirstSet(left) + 1;
      left := ClearLowest(left);
    }
    NextSet(m, left, z, k, k);
    n := FirstSet(left);
  }

  /** With i < PopCount(m) bits before z and none of them left, the lowest set bit is the next one of m. */
  lemma NextSet(m: Mask, left: Mask, z: nat, i: nat, k: nat)
    requires z <= LANES && PopCount(m[..z]) == i <= k < PopCount(m)
    requires forall j :: 0 <= j < z ==> !left[j]
    requires forall j :: z <= j < LANES ==> left[j] == m[j]
    ensures var n := FirstSet(left);
            n < LANES && z <= n && m[n] && PopCount(m[..n]) == i && PopCount(m[..n + 1]) == i + 1
  {
    var n := FirstSet(left);
    assert m[..LANES] == m;
    if n == LANES {
      NoneSet(m, z, LANES);
    } else {
      NoneSet(m, z, n);
      PopCountNext(m, n + 1);
    }
  }

  lemma {:induction false} NoneSet(m: seq<bool>, z: nat, n: nat)
    requires z <= n <= |m| && forall j :: z <= j < n ==> !m[j]
    ensures PopCount(m[..n]) == PopCount(m[..z])
    decreases n
  {
    if z < n {
      NoneSet(m, z, n - 1);
      assert m[..n][..n - 1] == m[..n - 1];
    }
  }

  // ------------------------------------------------------------------ counting

  /** Spaces among the bytes from a up to b. */
  function Spaces(s: seq<Byte>, a: nat, b: nat): nat
    requires a <= b <= |s|
    decreases b
  {
    if a == b then 0 else Spaces(s, a, b - 1) + if s[b - 1] == SPACE then 1 else 0
  }

  /** The last byte of a run of blanks. */
  predicate RunEnd(s: seq<Byte>, i: nat)
    requires i < |s|
  {
    s[i] <= SPACE && (i + 1 == |s| || s[i + 1] > SPACE)
  }

  /** Runs of blanks that end among the bytes from a up to b. */
  function Ended(s: seq<Byte>, a: nat, b: nat): nat
    requires a <= b <= |s|
    decreases b
  {
    if a == b then 0 else Ended(s, a, b - 1) + if RunEnd(s, b - 1) then 1 else 0
  }

  lemma {:induction false} SpacesSplit(s: seq<Byte>, a: nat, b: nat, c: nat)
    requires a <= b <= c <= |s|
    ensures Spaces(s, a, c) == Spaces(s, a, b) + Spaces(s, b, c)
    decreases c
  {
    if b < c {
      SpacesSplit(s, a, b, c - 1);
    }
  }

  lemma {:induction false} EndedSplit(s: seq<Byte>, a: nat, b: nat, c: nat)
    requires a <= b <= c <= |s|
    ensures Ended(s, a, c) == Ended(s, a, b) + Ended(s, b, c)
    decreases c
  {
    if b < c {
      EndedSplit(s, a, b, c - 1);
    }
  }

  lemma {:induction false} NoneEnded(s: seq<Byte>, a: nat, b: nat)
    requires a <= b <= |s| && forall i :: a <= i < b ==> !RunEnd(s, i)
    ensures Ended(s, a, b) == 0
    decreases b
  {
    if a < b {
      NoneEnded(s, a, b - 1);
    }
  }

  lemma PopCountNext(m: seq<bool>, n: nat)
    requires 0 < n <= |m|
    ensures PopCount(m[..n]) == PopCount(m[..n - 1]) + if m[n - 1] then 1 else 0
  {
    assert m[..n][..n - 1] == m[..n - 1];
  }

  lemma {:induction false} MaskCounts(s: seq<Byte>, cur: nat, n: nat)
    requires cur + LANES <= |s| && n <= LANES
    ensures PopCount(MaskOf(s, cur, IsSpace)[..n]) == Spaces(s, cur, cur + n)
    decreases n
  {
    if n > 0 {
      MaskCounts(s, cur, n - 1);
      PopCountNext(MaskOf(s, cur, IsSpace), n);
      assert MaskOf(s, cur, IsSpace)[n - 1] == IsSpace(s[cur + n - 1]);
    } else {
      assert MaskOf(s, cur, IsSpace)[..0] == [];
    }
  }

  lemma ChunkCounts(s: seq<Byte>, cur: nat)
    requires cur + LANES <= |s|
    ensures PopCount(MaskOf(s, cur, IsSpace)) == Spaces(s, cur, cur + LANES)
  {
    MaskCounts(s, cur, LANES);
    assert MaskOf(s, cur, IsSpace)[..LANES] == MaskOf(s, cur, IsSpace);
  }

  /** Position of the n-th space from cur on, or the end. */
  function SpaceIndex(s: seq<Byte>, cur: nat, n: nat): (r: nat)
    requires cur <= |s| && n > 0
    ensures cur <= r <= |s|
    decreases |s| - cur
  {
    if cur == |s| then cur
    else if s[cur] != SPACE then SpaceIndex(s, cur + 1, n)
    else if n == 1 then cur
    else SpaceIndex(s, cur + 1, n - 1)
  }

  lemma {:induction false} SpaceAt(s: seq<Byte>, cur: nat, n: nat, q: nat)
    requires cur <= q < |s| && n > 0 && s[q] == SPACE && Spaces(s, cur, q) == n - 1
    ensures SpaceIndex(s, cur, n) == q
    decreases q - cur
  {
    if cur < q {
      SpacesSplit(s, cur, cur + 1, q);
      assert Spaces(s, cur, cur + 1) == if s[cur] == SPACE then 1 else 0;
      SpaceAt(s, cur + 1, if s[cur] == SPACE then n - 1 else n, q);
    }
  }

  lemma {:induction false} SpaceIndexIs(s: seq<Byte>, cur: nat, n: nat, end: nat)
    requires cur <= end <= |s| && 0 < n <= Spaces(s, cur, end)
    ensures var q := SpaceIndex(s, cur, n); q < end && s[q] == SPACE && Spaces(s, cur, q) == n - 1
    decreases end - cur
  {
    SpacesSplit(s, cur, cur + 1, end);
    assert Spaces(s, cur, cur + 1) == if s[cur] == SPACE then 1 else 0;
    if s[cur] != SPACE || n > 1 {
      SpaceIndexIs(s, cur + 1, if s[cur] == SPACE then n - 1 else n, end);
      SpacesSplit(s, cur, cur + 1, SpaceIndex(s, cur, n));
    }
  }

  // ------------------------------------------------------------------ the vector form

  /** Chunks with too few spaces are passed whole; the tail is scalar. */
  function Chunks(s: seq<Byte>, cur: nat, left: nat): nat
    requires cur <= |s|
    decreases |s| - cur
  {
    if cur + LANES <= |s| && left > 0 then
      var spaces := Spaces(s, cur, cur + LANES);
      if spaces < left then Chunks(s, cur + LANES, left - spaces)
      else Scan(s, SpaceIndex(s, cur, left), IsSolid)
    else SkipTokens(s, cur, left)
  }

  lemma ChunksUnfold(s: seq<Byte>, cur: nat, left: nat)
    requires cur + LANES <= |s| && left > 0
    ensures var spaces := Spaces(s, cur, cur + LANES);
            && (spaces < left ==> Chunks(s, cur, left) == Chunks(s, cur + LANES, left - spaces))
            && (spaces >= left ==> Chunks(s, cur, left) == Scan(s, SpaceIndex(s, cur, left), IsSolid))
  {
  }

  function VectorSkip(s: seq<Byte>, start: nat, count: nat): nat
    requires start <= |s|
  {
    if start == |s| || count <= 2 then SkipTokens(s, start, count) else Chunks(s, start, count)
  }

  /** The chunk holds the space asked for: select its bit and skip the blanks there. */
  method SkipWithinChunk(s: seq<Byte>, cur: nat, left: nat) returns (r: nat)
    requires cur + LANES <= |s| && 0 < left <= PopCount(MaskOf(s, cur, IsSpace))
    ensures r == Scan(s, SpaceIndex(s, cur, left), IsSolid)
  {
    var mask := MaskOf(s, cur, IsSpace);
    var offset := SelectBit(mask, left - 1);
    MaskCounts(s, cur, offset);
    SpaceAt(s, cur, left, cur + offset);
    r := SkipWhitespace(s, cur + offset);
  }

  /** The vector form counts only spaces, each one as a token's end. */
  method SkipTokensVector(s: seq<Byte>, start: nat, count: int) returns (cur: nat)
    requires start <= |s|
    ensures cur == if count <= 0 then start else VectorSkip(s, start, count)
  {
    cur := start;
    if count <= 0 || cur >= |s| {
      return;
    }
    if count <= 2 {
      cur := SkipTokensScalar(s, start, count);
      return;
    }
    var left := count;
    while cur + LANES <= |s| && left > 0
      invariant cur <= |s| && left >= 0
      invariant Chunks(s, cur, left) == Chunks(s, start, count)
      decreases |s| - cur
    {
      var mask := MaskOf(s, cur, IsSpace);
      var spaces := PopCount(mask);
      ChunkCounts(s, cur);
      ChunksUnfold(s, cur, left);
      if spaces < left {
        left := left - spaces;
        cur := cur + LANES;
      } else {
        cur := SkipWithinChunk(s, cur, left);
        return;
      }
    }
    cur := SkipTokensScalar(s, cur, left);
  }

  // ------------------------------------------------------------------ vector against scalar

  /** The end of the last whole chunk. */
  function ChunksEnd(s: seq<Byte>, cur: nat): (e: nat)
    requires cur <= |s|
    ensures cur <= e <= |s| < e + LANES
  {
    cur + (|s| - cur) / LANES * LANES
  }

  /** The space asked for, if the whole chunks hold that many, else the end of the last of them. */
  function StopAt(s: seq<Byte>, cur: nat, left: nat): (p: nat)
    requires cur <= |s| && left > 0
    ensures cur <= p <= |s|
  {
    if Spaces(s, cur, ChunksEnd(s, cur)) >= left then SpaceIndex(s, cur, left) else ChunksEnd(s, cur)
  }

  lemma TokenAtSpace(s: seq<Byte>, q: nat)
    requires q < |s| && s[q] == SPACE
    ensures SkipTokens(s, q, 1) == Scan(s, q, IsSolid)
  {
  }

  lemma StopInChunk(s: seq<Byte>, cur: nat, left: nat)
    requires cur + LANES <= |s| && 0 < left <= Spaces(s, cur, cur + LANES)
    ensures var q := StopAt(s, cur, left);
            Spaces(s, cur, q) == left - 1 && Chunks(s, cur, left) == SkipTokens(s, q, 1)
  {
    SpacesSplit(s, cur, cur + LANES, ChunksEnd(s, cur));
    SpaceIndexIs(s, cur, left, cur + LANES);
    TokenAtSpace(s, SpaceIndex(s, cur, left));
  }

  /** The chunk loop and the stopping point move past a chunk with too few spaces alike. */
  lemma StopPastChunk(s: seq<Byte>, cur: nat, left: nat)
    requires cur + LANES <= |s| && Spaces(s, cur, cur + LANES) < left
    ensures var rest := left - Spaces(s, cur, cur + LANES);
            && StopAt(s, cur, left) == StopAt(s, cur + LANES, rest)
            && Chunks(s, cur, left) == Chunks(s, cur + LANES, rest)
            && left - Spaces(s, cur, StopAt(s, cur, left)) == rest - Spaces(s, cur + LANES, StopAt(s, cur, left))
  {
    var next, e := cur + LANES, ChunksEnd(s, cur);
    var rest := left - Spaces(s, cur, next);
    assert e == ChunksEnd(s, next);
    SpacesSplit(s, cur, next, StopAt(s, next, rest));
    SpacesSplit(s, cur, next, e);
    if Spaces(s, next, e) >= rest {
      var q := SpaceIndex(s, next, rest);
      SpaceIndexIs(s, next, rest, e);
      SpacesSplit(s, cur, next, q);
      SpaceAt(s, cur, left, q);
    }
  }

  lemma StopInTail(s: seq<Byte>, cur: nat, left: nat)
    requires cur <= |s| < cur + LANES && left > 0
    ensures StopAt(s, cur, left) == cur && Spaces(s, cur, cur) == 0
    ensures Chunks(s, cur, left) == SkipTokens(s, cur, left)
  {
  }

  /** From there on the vector form is the scalar one with the spaces passed taken off the count. */
  lemma {:induction false} ChunksFromStop(s: seq<Byte>, cur: nat, left: nat)
    requires cur <= |s| && left > 0
    ensures var p := StopAt(s, cur, left);
            Spaces(s, cur, p) < left && Chunks(s, cur, left) == SkipTokens(s, p, left - Spaces(s, cur, p))
    decreases |s| - cur
  {
    if cur + LANES > |s| {
      StopInTail(s, cur, left);
    } else if left <= Spaces(s, cur, cur + LANES) {
      StopInChunk(s, cur, left);
    } else {
      var rest := left - Spaces(s, cur, cur + LANES);
      StopPastChunk(s, cur, left);
      ChunksFromStop(s, cur + LANES, rest);
    }
  }

  /** p lies right behind the n-th run of blanks from cur on, or at the end when there are fewer. */
  ghost predicate Lands(s: seq<Byte>, cur: nat, n: nat, p: nat) {
    && cur <= p <= |s|
    && (|| (cur < p && RunEnd(s, p - 1) && Ended(s, cur, p) == n)
        || (p == |s| && Ended(s, cur, p) < n))
  }

  lemma {:induction false} SkipTokensLands(s: seq<Byte>, cur: nat, n: nat)
    requires cur <= |s| && n > 0
    ensures Lands(s, cur, n, SkipTokens(s, cur, n))
    decreases n
  {
    if cur < |s| {
      var a := Scan(s, cur, IsBlank);
      var b := Scan(s, a, IsSolid);
      NoneEnded(s, cur, a);
      EndedSplit(s, cur, a, b);
      if a < |s| {
        NoneEnded(s, a, b - 1);
        assert RunEnd(s, b - 1);
      }
      if n > 1 {
        SkipTokensLands(s, b, n - 1);
        EndedSplit(s, cur, b, SkipTokens(s, b, n - 1));
      }
    }
  }

  lemma LandingIsUnique(s: seq<Byte>, cur: nat, n: nat, p: nat, m: nat, q: nat)
    requires Lands(s, cur, n, p) && Lands(s, cur, m, q)
    ensures p == q <==> n == m || (p == |s| && q == |s|)
  {
    if p < q {
      EndedSplit(s, cur, p, q);
      if RunEnd(s, q - 1) {
        assert Ended(s, p, q) > 0;
      }
    } else if q < p {
      EndedSplit(s, cur, q, p);
      if RunEnd(s, p - 1) {
        assert Ended(s, q, p) > 0;
      }
    }
  }

  /** Whether fewer than n runs end before the last byte. */
  predicate RunsOut(s: seq<Byte>, cur: nat, n: nat)
    requires cur < |s|
  {
    Ended(s, cur, |s| - 1) < n
  }

  lemma LandsAtEnd(s: seq<Byte>, cur: nat, n: nat, p: nat)
    requires cur < |s| && n > 0 && Lands(s, cur, n, p)
    ensures p == |s| <==> RunsOut(s, cur, n)
  {
    if p < |s| {
      EndedSplit(s, cur, p, |s| - 1);
    }
  }

  lemma LandingsAgree(s: seq<Byte>, cur: nat, n: nat, p: nat, m: nat, q: nat)
    requires cur < |s| && n > 0 && m > 0 && Lands(s, cur, n, p) && Lands(s, cur, m, q)
    ensures p == q <==> n == m || (RunsOut(s, cur, m) && RunsOut(s, cur, n))
  {
    LandingIsUnique(s, cur, n, p, m, q);
    LandsAtEnd(s, cur, n, p);
    LandsAtEnd(s, cur, m, q);
  }

  /** The vector form lands at its own rank: the count, less spaces met, plus runs ended. */
  lemma ChunksLand(s: seq<Byte>, cur: nat, count: nat)
    requires cur <= |s| && count > 0
    ensures var p := StopAt(s, cur, count);
            && Spaces(s, cur, p) < count
            && Lands(s, cur, count - Spaces(s, cur, p) + Ended(s, cur, p), Chunks(s, cur, count))
  {
    var p := StopAt(s, cur, count);
    ChunksFromStop(s, cur, count);
    var left := count - Spaces(s, cur, p);
    SkipTokensLands(s, p, left);
    LandsFromBefore(s, cur, p, left, SkipTokens(s, p, left));
  }

  lemma LandsFromBefore(s: seq<Byte>, cur: nat, p: nat, n: nat, r: nat)
    requires cur <= p <= |s| && n > 0 && Lands(s, p, n, r)
    ensures Lands(s, cur, Ended(s, cur, p) + n, r)
  {
    EndedSplit(s, cur, p, r);
  }

  /**
   On every buffer the vector form lands where the scalar one does exactly when, up to the count-th
   space or else the end of the last whole chunk, there are as many spaces as ends of runs of
   blanks, or both demands exceed the runs there are.
   */
  lemma VectorSkipAgreesExactlyWhen(s: seq<Byte>, cur: nat, count: nat)
    requires cur < |s| && count > 2
    ensures var p := StopAt(s, cur, count);
            var spaces, ended := Spaces(s, cur, p), Ended(s, cur, p);
            && spaces < count
            && (VectorSkip(s, cur, count) == SkipTokens(s, cur, count) <==>
                spaces == ended || (RunsOut(s, cur, count) && RunsOut(s, cur, count - spaces + ended)))
  {
    var p := StopAt(s, cur, count);
    ChunksLand(s, cur, count);
    SkipTokensLands(s, cur, count);
    var n := count - Spaces(s, cur, p) + Ended(s, cur, p);
    LandingsAgree(s, cur, n, Chunks(s, cur, count), count, SkipTokens(s, cur, count));
  }

  /** Single spaces and no other byte at or below a space, as in /proc/<pid>/stat. */
  ghost predicate SingleSpaced(s: seq<Byte>, cur: nat) {
    forall i :: cur <= i < |s| && s[i] <= SPACE ==> s[i] == SPACE && (i + 1 < |s| ==> s[i + 1] > SPACE)
  }

  lemma {:induction false} SpacesEndRuns(s: seq<Byte>, a: nat, b: nat)
    requires a <= b <= |s| && SingleSpaced(s, a)
    ensures Spaces(s, a, b) == Ended(s, a, b)
    decreases b
  {
    if a < b {
      SpacesEndRuns(s, a, b - 1);
    }
  }

  lemma VectorSkipIsScalar(s: seq<Byte>, cur: nat, count: nat)
    requires cur <= |s| && SingleSpaced(s, cur)
    ensures VectorSkip(s, cur, count) == SkipTokens(s, cur, count)
  {
    if cur < |s| && count > 2 {
      VectorSkipAgreesExactlyWhen(s, cur, count);
      SpacesEndRuns(s, cur, StopAt(s, cur, count));
    }
  }

  /** Where a buffer goes on with three spaces and a token, the vector form asked for three tokens stops too early. */
  lemma AdjacentSpacesDiverge(s: seq<Byte>, cur: nat)
    requires cur + LANES <= |s| && s[cur] == s[cur + 1] == s[cur + 2] == SPACE < s[cur + 3]
    ensures VectorSkip(s, cur, 3) != SkipTokens(s, cur, 3)
  {
    ThreeSpaces(s, cur);
    SpacesSplit(s, cur, cur + 3, ChunksEnd(s, cur));
    SpaceAt(s, cur, 3, cur + 2);
    assert StopAt(s, cur, 3) == cur + 2;
    EndedSplit(s, cur, cur + 3, |s| - 1);
    VectorSkipAgreesExactlyWhen(s, cur, 3);
  }

  lemma ThreeSpaces(s: seq<Byte>, cur: nat)
    requires cur + LANES <= |s| && s[cur] == s[cur + 1] == s[cur + 2] == SPACE < s[cur + 3]
    ensures Spaces(s, cur, cur + 2) == 2 && Spaces(s, cur, cur + 3) == 3
    ensures Ended(s, cur, cur + 2) == 0 && Ended(s, cur, cur + 3) == 1
  {
    assert Spaces(s, cur, cur + 1) == 1;
    NoneEnded(s, cur, cur + 2);
    assert RunEnd(s, cur + 2);
  }
}
