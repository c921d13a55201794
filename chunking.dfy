/** How the candidate order is cut into one chunk per table:
    `np.split(order, np.cumsum(capacities)[:-1] - 1)`, with NumPy's
    slices following Python's rules for negative and too-large bounds. */
module Chunking {
  import opened Sequences

  /** `t.size` of the `(size // 2) x 2` grid built for a table of `size`. */
  function Capacity(size: nat): (seats: nat)
    ensures seats % 2 == 0 && seats <= size && size - seats <= 1
  {
    2 * (size / 2)
  }

  /** An even size is all seats; an odd size loses one seat. */
  lemma CapacityParity(size: nat)
    ensures Capacity(size) % 2 == 0 && Capacity(size) <= size
    ensures Capacity(size) == size <==> size % 2 == 0
    ensures Capacity(size) == size - 1 <==> size % 2 == 1
  {
  }

  function Capacities(sizes: seq<nat>): (caps: seq<nat>)
    ensures |caps| == |sizes|
    ensures forall j :: 0 <= j < |sizes| ==> caps[j] == Capacity(sizes[j])
  {
    seq(|sizes|, j requires 0 <= j < |sizes| => Capacity(sizes[j]))
  }

  /** The sum of a list of seat counts. */
  function Total(s: seq<nat>): (t: nat)
    ensures forall k :: 0 <= k < |s| ==> s[k] <= t
  {
    if s == [] then 0 else Total(s[..|s| - 1]) + s[|s| - 1]
  }

  lemma TotalPrefix(s: seq<nat>, j: nat)
    requires j < |s|
    ensures Total(s[..j + 1]) == Total(s[..j]) + s[j]
  {
    assert s[..j + 1][..j] == s[..j];
  }

  lemma {:induction false} TotalMonotone(s: seq<nat>, i: nat, j: nat)
    requires i <= j <= |s|
    ensures Total(s[..i]) <= Total(s[..j])
    decreases j - i
  {
    if i < j {
      TotalPrefix(s, j - 1);
      TotalMonotone(s, i, j - 1);
    }
  }

  /** `np.cumsum(caps)[:-1] - 1`: one split point between each two tables. */
  function SplitPoints(caps: seq<nat>): (points: seq<int>)
    ensures |points| == if caps == [] then 0 else |caps| - 1
  {
    if caps == [] then []
    else seq(|caps| - 1, j requires 0 <= j < |caps| - 1 => Total(caps[..j + 1]) - 1)
  }

  /** A slice bound as Python reads it for a sequence of length `n`:
      negative bounds count from the end, and bounds are clamped to `0..n`. */
  function SliceBound(i: int, n: nat): (b: nat)
    ensures b <= n
    ensures 0 <= i <= n ==> b == i
    ensures -(n as int) <= i < 0 ==> b == n + i
    ensures i > n ==> b == n
    ensures i < -(n as int) ==> b == 0
  {
    if i < 0 then (if i + n < 0 then 0 else i + n)
    else if i > n then n
    else i
  }

  /** `s[lo:hi]` */
  function PySlice<T>(s: seq<T>, lo: int, hi: int): (r: seq<T>)
    ensures var a, b := SliceBound(lo, |s|), SliceBound(hi, |s|);
            r == if a < b then s[a..b] else []
    ensures |r| <= |s|
    ensures 0 <= lo <= hi <= |s| ==> r == s[lo..hi]
  {
    var a, b := SliceBound(lo, |s|), SliceBound(hi, |s|);
    if a < b then s[a..b] else []
  }

  /** The bounds NumPy slices between: `[0] + points + [len(s)]`, read as
      Python slice bounds. */
  function Bounds(n: nat, points: seq<int>): (e: seq<nat>)
    ensures |e| == |points| + 2 && e[0] == 0 && e[|points| + 1] == n
    ensures forall j :: 0 < j <= |points| ==> e[j] == SliceBound(points[j - 1], n)
  {
    [0] + seq(|points|, j requires 0 <= j < |points| => SliceBound(points[j], n)) + [n]
  }

  /** `np.split(s, points)` */
  function SplitAt<T>(s: seq<T>, points: seq<int>): (chunks: seq<seq<T>>)
    ensures |chunks| == |points| + 1
    ensures var e := Bounds(|s|, points);
            forall j :: 0 <= j <= |points| ==> chunks[j] == if e[j] < e[j + 1] then s[e[j]..e[j + 1]] else []
  {
    var d := [0] + points + [|s|];
    seq(|points| + 1, j requires 0 <= j <= |points| => PySlice(s, d[j], d[j + 1]))
  }

  lemma {:induction false} FindSegment(e: seq<nat>, x: nat, j: nat)
    requires j < |e| - 1 && e[j] <= x < e[|e| - 1]
    ensures exists m :: j <= m < |e| - 1 && e[m] <= x < e[m + 1]
    decreases |e| - j
  {
    if x >= e[j + 1] {
      FindSegment(e, x, j + 1);
    }
  }

  /** Whatever the split points, every element lands in some chunk. */
  lemma SplitAtCovers<T>(s: seq<T>, points: seq<int>, x: nat)
    requires x < |s|
    ensures exists j :: 0 <= j < |SplitAt(s, points)| && s[x] in SplitAt(s, points)[j]
  {
    var chunks, e := SplitAt(s, points), Bounds(|s|, points);
    FindSegment(e, x, 0);
    var m :| 0 <= m < |e| - 1 && e[m] <= x < e[m + 1];
    var c := s[e[m]..e[m + 1]];
    assert c[x - e[m]] == s[x];
    assert chunks[m] == c;
  }

  /** Every chunk holds only elements of the sequence split. */
  lemma SplitAtMembers<T>(s: seq<T>, points: seq<int>, j: nat, x: T)
    requires j <= |points| && x in SplitAt(s, points)[j]
    ensures x in s
  {
    var e := Bounds(|s|, points);
    var chunk := SplitAt(s, points)[j];
    var i :| 0 <= i < |chunk| && chunk[i] == x;
    assert chunk == s[e[j]..e[j + 1]];
    assert s[e[j] + i] == x;
  }

  function Concat<T>(chunks: seq<seq<T>>): seq<T>
  {
    if chunks == [] then [] else Concat(chunks[..|chunks| - 1]) + chunks[|chunks| - 1]
  }

  /** Everything in a chunk is in the concatenation. */
  lemma {:induction false} InConcat<T>(chunks: seq<seq<T>>, j: nat, x: T)
    requires j < |chunks| && x in chunks[j]
    ensures x in Concat(chunks)
  {
    if j < |chunks| - 1 {
      InConcat(chunks[..|chunks| - 1], j, x);
    }
  }

  /** Chunks that each fit their seat count fit the seat total together. */
  lemma {:induction false} ConcatBound<T>(chunks: seq<seq<T>>, caps: seq<nat>)
    requires |chunks| == |caps|
    requires forall j :: 0 <= j < |chunks| ==> |chunks[j]| <= caps[j]
    ensures |Concat(chunks)| <= Total(caps)
  {
    if chunks != [] {
      ConcatBound(chunks[..|chunks| - 1], caps[..|caps| - 1]);
    }
  }

  lemma {:induction false} ConcatPrefix<T>(s: seq<T>, points: seq<int>, m: nat)
    requires m <= |points| + 1
    requires forall j :: 0 <= j <= |points| ==> Bounds(|s|, points)[j] <= Bounds(|s|, points)[j + 1]
    ensures Concat(SplitAt(s, points)[..m]) == s[..Bounds(|s|, points)[m]]
  {
    var chunks, e := SplitAt(s, points), Bounds(|s|, points);
    if m > 0 {
      ConcatPrefix(s, points, m - 1);
      ConcatStep(chunks, m);
      assert chunks[m - 1] == s[e[m - 1]..e[m]];
      SliceJoin(s, e[m - 1], e[m]);
    }
  }

  lemma ConcatStep<T>(chunks: seq<seq<T>>, m: nat)
    requires 0 < m <= |chunks|
    ensures Concat(chunks[..m]) == Concat(chunks[..m - 1]) + chunks[m - 1]
  {
    assert chunks[..m][..m - 1] == chunks[..m - 1];
  }

  lemma SliceJoin<T>(s: seq<T>, a: nat, b: nat)
    requires a <= b <= |s|
    ensures s[..b] == s[..a] + s[a..b]
  {
  }

  /** When the split points are non-negative and non-decreasing, the chunks
      partition the sequence: read in order they give it back. */
  lemma SplitAtPartition<T>(s: seq<T>, points: seq<int>)
    requires forall j :: 0 <= j < |points| ==> 0 <= points[j]
    requires forall j :: 0 < j < |points| ==> points[j - 1] <= points[j]
    ensures Concat(SplitAt(s, points)) == s
  {
    var chunks, e := SplitAt(s, points), Bounds(|s|, points);
    forall j | 0 <= j <= |points| ensures e[j] <= e[j + 1] {}
    ConcatPrefix(s, points, |points| + 1);
    assert chunks[..|points| + 1] == chunks;
  }

  /** With the first table holding at least one seat, the split points are
      non-negative and non-decreasing, so the chunks partition the order. */
  lemma TableSplitPartition<T>(s: seq<T>, caps: seq<nat>)
    requires |caps| >= 2 ==> caps[0] >= 1
    ensures Concat(SplitAt(s, SplitPoints(caps))) == s
  {
    var points := SplitPoints(caps);
    forall j | 0 <= j < |points| ensures 0 <= points[j] {
      TotalPrefix(caps, 0);
      TotalMonotone(caps, 1, j + 1);
    }
    forall j | 0 < j < |points| ensures points[j - 1] <= points[j] {
      TotalMonotone(caps, j, j + 1);
    }
    SplitAtPartition(s, points);
  }

  /** A single table takes the whole order as its one chunk. */
  lemma SingleTableOneChunk<T>(s: seq<T>, cap: nat)
    ensures SplitAt(s, SplitPoints([cap])) == [s]
  {
    assert SplitPoints([cap]) == [];
    assert s[0..|s|] == s;
  }

  /** Where the chunks begin and end when every split point falls inside
      the order: table `j > 0` starts at the seats before it, less one. */
  lemma ChunkBounds<T>(s: seq<T>, caps: seq<nat>, j: nat)
    requires |caps| >= 2 && caps[0] >= 1
    requires Total(caps[..|caps| - 1]) - 1 <= |s|
    requires 0 < j < |caps|
    ensures Bounds(|s|, SplitPoints(caps))[j] == Total(caps[..j]) - 1
  {
    TotalPrefix(caps, 0);
    TotalMonotone(caps, 1, j);
    TotalMonotone(caps, j, |caps| - 1);
  }

  /** The sizes of the chunks when every split point falls inside the order:
      the first chunk is one person short of the first table's seats, every
      middle chunk has exactly its table's seats, and the last chunk takes
      everyone remaining, one person more than the seats before it leave. */
  lemma ChunkSizes<T>(s: seq<T>, caps: seq<nat>)
    requires |caps| >= 2 && caps[0] >= 1
    requires Total(caps[..|caps| - 1]) - 1 <= |s|
    ensures var chunks := SplitAt(s, SplitPoints(caps));
            |chunks| == |caps| &&
            |chunks[0]| == caps[0] - 1 &&
            (forall j :: 0 < j < |caps| - 1 ==> |chunks[j]| == caps[j]) &&
            |chunks[|caps| - 1]| == |s| - Total(caps[..|caps| - 1]) + 1
  {
    FirstChunkSize(s, caps);
    forall j | 0 < j < |caps| - 1 ensures |SplitAt(s, SplitPoints(caps))[j]| == caps[j] {
      MiddleChunkSize(s, caps, j);
    }
    LastChunkSize(s, caps);
  }

  lemma FirstChunkSize<T>(s: seq<T>, caps: seq<nat>)
    requires |caps| >= 2 && caps[0] >= 1
    requires Total(caps[..|caps| - 1]) - 1 <= |s|
    ensures |SplitAt(s, SplitPoints(caps))[0]| == caps[0] - 1
  {
    ChunkBounds(s, caps, 1);
    TotalPrefix(caps, 0);
    ChunkLength(s, SplitPoints(caps), 0);
  }

  lemma MiddleChunkSize<T>(s: seq<T>, caps: seq<nat>, j: nat)
    requires |caps| >= 2 && caps[0] >= 1
    requires Total(caps[..|caps| - 1]) - 1 <= |s|
    requires 0 < j < |caps| - 1
    ensures |SplitAt(s, SplitPoints(caps))[j]| == caps[j]
  {
    ChunkBounds(s, caps, j);
    ChunkBounds(s, caps, j + 1);
    TotalPrefix(caps, j);
    ChunkLength(s, SplitPoints(caps), j);
  }

  lemma LastChunkSize<T>(s: seq<T>, caps: seq<nat>)
    requires |caps| >= 2 && caps[0] >= 1
    requires Total(caps[..|caps| - 1]) - 1 <= |s|
    ensures |SplitAt(s, SplitPoints(caps))[|caps| - 1]| == |s| - Total(caps[..|caps| - 1]) + 1
  {
    ChunkBounds(s, caps, |caps| - 1);
    ChunkLength(s, SplitPoints(caps), |caps| - 1);
  }

  /** The length of chunk `j` is the distance between its bounds. */
  lemma ChunkLength<T>(s: seq<T>, points: seq<int>, j: nat)
    requires j <= |points|
    ensures var e := Bounds(|s|, points);
            |SplitAt(s, points)[j]| == if e[j] < e[j + 1] then e[j + 1] - e[j] else 0
  {
  }

  /** A first table of fewer than two seats makes the first split point -1,
      which Python reads as "all but the last": the first chunk is then
      everyone except the last person of the order. */
  lemma FirstTableWithoutSeats<T>(s: seq<T>, caps: seq<nat>)
    requires |caps| >= 2 && caps[0] == 0 && |s| >= 1
    ensures SplitAt(s, SplitPoints(caps))[0] == s[..|s| - 1]
  {
    TotalPrefix(caps, 0);
    assert SplitPoints(caps)[0] == -1;
  }
}
