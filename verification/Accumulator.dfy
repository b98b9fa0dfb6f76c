/** accumulator/accumulator.go: the Merkle Mountain Range over block headers, the checks that tie
    a root to a block, and the reporting of heights no miner committed. */
module Accumulator {
  import opened Bits
  import opened Commitment
  import opened MerkleTree
  import opened Positions
  import opened FieldTree

  // ---------------------------------------------------------------- mountains

  /** The last of p, 2p, 4p, ... that is at most n. */
  function TopFrom(n: nat, p: nat): (t: nat)
    requires 0 < p <= n
    ensures p <= t <= n < 2 * t
    decreases n - p
  {
    if n < 2 * p then p else TopFrom(n, 2 * p)
  }

  /** The largest power of two that is at most n. */
  function TopSize(n: nat): (p: nat)
    requires n > 0
    ensures 0 < p <= n < 2 * p
  {
    TopFrom(n, 1)
  }

  /** Greedy partition of n into powers of two. */
  function Sizes(n: nat): (sizes: seq<nat>)
    ensures sizes == [] <==> n == 0
  {
    if n == 0 then [] else [TopSize(n)] + Sizes(n - TopSize(n))
  }

  function Sum(sizes: seq<nat>): nat {
    if sizes == [] then 0 else sizes[0] + Sum(sizes[1..])
  }

  ghost predicate IsPow2(p: nat) { exists k: nat :: p == Pow2(k) }

  /** Strictly decreasing powers of two. */
  ghost predicate Mountains(sizes: seq<nat>) {
    && (forall i :: 0 <= i < |sizes| ==> IsPow2(sizes[i]))
    && (forall i :: 0 < i < |sizes| ==> sizes[i] < sizes[i - 1])
  }

  lemma {:induction false} TopFromIs(n: nat, j: nat, k: nat)
    requires j <= k && Pow2(k) <= n < 2 * Pow2(k)
    ensures Pow2(j) <= n && TopFrom(n, Pow2(j)) == Pow2(k)
    decreases k - j
  {
    Pow2Monotone(j, k);
    if j < k {
      Pow2Monotone(j + 1, k);
      TopFromIs(n, j + 1, k);
    }
  }

  lemma TopSizeAt(n: nat, k: nat)
    requires Pow2(k) <= n < 2 * Pow2(k)
    ensures TopSize(n) == Pow2(k)
  {
    TopFromIs(n, 0, k);
  }

  lemma TopSizeIsPow2(n: nat) returns (k: nat)
    requires n > 0
    ensures BitLen(n) == k + 1 && TopSize(n) == Pow2(k) && Pow2(k) <= n < 2 * Pow2(k)
  {
    BitLenBounds(n);
    k := BitLen(n) - 1;
    TopSizeAt(n, k);
  }

  lemma {:induction false} SizesPartition(n: nat)
    ensures Sum(Sizes(n)) == n && Mountains(Sizes(n))
  {
    if n > 0 {
      var p := TopSize(n);
      var m := n - p;
      SizesPartition(m);
      var k := TopSizeIsPow2(n);
      assert Sizes(n) == [p] + Sizes(m);
      LargerInFront(p, Sizes(m));
    }
  }

  lemma LargerInFront(p: nat, rest: seq<nat>)
    requires IsPow2(p) && Mountains(rest) && (rest != [] ==> rest[0] < p)
    ensures Mountains([p] + rest) && Sum([p] + rest) == p + Sum(rest)
  {
    var sizes := [p] + rest;
    assert sizes[1..] == rest;
    forall i | 0 < i < |sizes| ensures sizes[i] < sizes[i - 1] {
      if i > 1 {
        assert sizes[i] == rest[i - 1] && sizes[i - 1] == rest[i - 2];
      }
    }
  }

  lemma Doubling(a: nat, b: nat)
    requires Pow2(a) < Pow2(b)
    ensures 2 * Pow2(a) <= Pow2(b)
  {
    if a >= b {
      Pow2Monotone(b, a);
    } else {
      Pow2Monotone(a + 1, b);
    }
  }

  lemma {:induction false} MountainsSum(sizes: seq<nat>)
    requires Mountains(sizes) && sizes != []
    ensures sizes[0] <= Sum(sizes) < 2 * sizes[0]
  {
    var k: nat :| sizes[0] == Pow2(k);
    if |sizes| > 1 {
      var rest := sizes[1..];
      forall i | 0 <= i < |rest| ensures IsPow2(rest[i]) && (i > 0 ==> rest[i] < rest[i - 1]) {
        assert rest[i] == sizes[i + 1];
      }
      MountainsSum(rest);
      var j: nat :| rest[0] == Pow2(j);
      Doubling(j, k);
    }
  }

  /** There is only one such partition, so the two properties say everything about it. */
  lemma {:induction false} SizesUnique(n: nat, sizes: seq<nat>)
    requires Mountains(sizes) && Sum(sizes) == n
    ensures sizes == Sizes(n)
    decreases n
  {
    if sizes != [] {
      var k: nat :| sizes[0] == Pow2(k);
      MountainsSum(sizes);
      TopSizeAt(n, k);
      var rest := sizes[1..];
      forall i | 0 <= i < |rest| ensures IsPow2(rest[i]) && (i > 0 ==> rest[i] < rest[i - 1]) {
        assert rest[i] == sizes[i + 1];
      }
      SizesUnique(n - sizes[0], rest);
    }
  }

  method MountainSizes(n: nat) returns (sizes: seq<nat>)
    requires n < WORD
    ensures sizes == Sizes(n) && Sum(sizes) == n && Mountains(sizes)
  {
    sizes := [];
    ghost var q: nat, rem: nat := 0, n;
    var width: nat := 64;
    WordWidth(width);
    for b := width downto 0
      invariant n == Shl(q, b) + rem && rem < Pow2(b)
      invariant sizes + Sizes(rem) == Sizes(n)
    {
      TestBit(n, q, rem, b);
      ghost var bit := Pow2(b);
      if And(n, Shl(1, b)) != 0 {
        FirstSize(rem, b, bit, sizes);
        sizes := sizes + [Shl(1, b)];
        q, rem := 2 * q + 1, rem - bit;
      } else {
        q := 2 * q;
      }
    }
    SizesPartition(n);
  }

  lemma WordWidth(width: nat)
    requires width == 64
    ensures Pow2(width) == WORD && Shl(0, width) == 0
  {
    Shift64(0, width - 64);
  }

  lemma FirstSize(rem: nat, b: nat, bit: nat, sizes: seq<nat>)
    requires bit == Pow2(b) && bit <= rem < 2 * bit
    ensures sizes + Sizes(rem) == sizes + [bit] + Sizes(rem - bit)
  {
    TopSizeAt(rem, b);
    assert Sizes(rem) == [bit] + Sizes(rem - bit);
  }

  /** What the mask test at bit b says about the bits not yet scanned. */
  lemma {:induction false} TestBit(n: nat, q: nat, rem: nat, b: nat)
    requires n == Shl(q, b + 1) + rem && rem < Pow2(b + 1)
    ensures And(n, Shl(1, b)) != 0 <==> rem >= Pow2(b)
    ensures Shl(1, b) == Pow2(b)
    ensures Shl(2 * q, b) == Shl(q, b + 1) && Shl(2 * q + 1, b) == Shl(q, b + 1) + Pow2(b)
    decreases b
  {
    if b == 0 {
      assert Pow2(1) == 2 && Shl(q, 1) == 2 * q;
      assert And(n, 1) == n % 2;
    } else {
      assert n / 2 == Shl(q, b) + rem / 2;
      TestBit(n / 2, q, rem / 2, b - 1);
      assert Shl(1, b) / 2 == Shl(1, b - 1) && Shl(1, b) % 2 == 0;
      assert Shl(2 * q, b) == 2 * Shl(2 * q, b - 1) && Shl(2 * q + 1, b) == 2 * Shl(2 * q + 1, b - 1);
    }
  }

  // ---------------------------------------------------------------- peaks and root

  /** The root of each mountain, largest and earliest first. */
  function Peaks(sha: Sha256d, leaves: seq<Hash>): (peaks: seq<Hash>)
    ensures peaks == [] <==> leaves == []
    decreases |leaves|
  {
    if leaves == [] then []
    else
      var p := TopSize(|leaves|);
      [Root(sha, leaves[..p])] + Peaks(sha, leaves[p..])
  }

  function Bag(sha: Sha256d, peaks: seq<Hash>): Hash {
    if peaks == [] then ZeroHash()
    else if |peaks| == 1 then peaks[0]
    else HashPair(sha, peaks[0], Bag(sha, peaks[1..]))
  }

  /** The accumulator root without peaks: the largest mountain paired with all that follows. */
  function AccRoot(sha: Sha256d, leaves: seq<Hash>): Hash
    decreases |leaves|
  {
    if leaves == [] then ZeroHash()
    else
      var p := TopSize(|leaves|);
      if p == |leaves| then Root(sha, leaves)
      else HashPair(sha, Root(sha, leaves[..p]), AccRoot(sha, leaves[p..]))
  }

  /** `left` is the first mountain of `all` and `right` is what follows it. */
  ghost predicate Splits(all: seq<Hash>, left: seq<Hash>, right: seq<Hash>) {
    all != [] && all == left + right && |left| == TopSize(|all|)
  }

  lemma SplitAt(all: seq<Hash>) returns (left: seq<Hash>, right: seq<Hash>)
    requires all != []
    ensures Splits(all, left, right)
    ensures |left| > 0 && |right| < |all|
    ensures left == all[..TopSize(|all|)] && right == all[TopSize(|all|)..]
  {
    var p := TopSize(|all|);
    left, right := all[..p], all[p..];
  }

  /** Peeling off the first mountain. */
  lemma PeaksJoin(sha: Sha256d, all: seq<Hash>, left: seq<Hash>, right: seq<Hash>)
    requires Splits(all, left, right) && left != []
    ensures Peaks(sha, all) == [Root(sha, left)] + Peaks(sha, right)
  {
    var p := TopSize(|all|);
    assert all[..p] == left && all[p..] == right;
  }

  lemma {:induction false} BagOfPeaks(sha: Sha256d, leaves: seq<Hash>)
    ensures Bag(sha, Peaks(sha, leaves)) == AccRoot(sha, leaves)
    decreases |leaves|
  {
    if leaves != [] {
      var p := TopSize(|leaves|);
      BagOfPeaks(sha, leaves[p..]);
      assert leaves[..|leaves|] == leaves;
      assert Peaks(sha, leaves)[1..] == Peaks(sha, leaves[p..]);
    }
  }

  method BagPeaks(sha: Sha256d, pk: seq<Hash>) returns (acc: Hash)
    ensures acc == Bag(sha, pk)
  {
    if |pk| == 0 {
      return ZeroHash();
    }
    acc := pk[|pk| - 1];
    var i := |pk| - 2;
    while i >= 0
      invariant -1 <= i <= |pk| - 2
      invariant acc == Bag(sha, pk[i + 1..])
    {
      acc := HashPair(sha, pk[i], acc);
      assert pk[i..][1..] == pk[i + 1..];
      i := i - 1;
    }
    assert pk[0..] == pk;
  }

  // ---------------------------------------------------------------- membership paths

  /** Up the mountain, across the bag of later mountains, then across each earlier one. */
  function AccPath(sha: Sha256d, leaves: seq<Hash>, height: nat): seq<PathElem>
    requires height < |leaves|
    decreases |leaves|
  {
    var p := TopSize(|leaves|);
    if height < p then
      PathOf(sha, leaves[..p], height) +
      (if p < |leaves| then [PathElem(AccRoot(sha, leaves[p..]), true)] else [])
    else
      AccPath(sha, leaves[p..], height - p) + [PathElem(Root(sha, leaves[..p]), false)]
  }

  /** Completeness: every appended header's path folds to the root. */
  lemma {:induction false} AccPathFolds(sha: Sha256d, leaves: seq<Hash>, height: nat)
    requires height < |leaves|
    ensures Folded(sha, leaves[height], AccPath(sha, leaves, height)) == AccRoot(sha, leaves)
    decreases |leaves|
  {
    var p, leaf := TopSize(|leaves|), leaves[height];
    var left, right := leaves[..p], leaves[p..];
    if height < p {
      PathFolds(sha, left, height);
      if p < |leaves| {
        FoldedSnoc(sha, leaf, PathOf(sha, left, height), PathElem(AccRoot(sha, right), true));
      } else {
        assert left == leaves;
        assert PathOf(sha, left, height) + [] == PathOf(sha, left, height);
      }
    } else {
      AccPathFolds(sha, right, height - p);
      FoldedSnoc(sha, leaf, AccPath(sha, right, height - p), PathElem(Root(sha, left), false));
    }
  }

  lemma FoldedSnoc(sha: Sha256d, leaf: Hash, path: seq<PathElem>, e: PathElem)
    ensures Folded(sha, leaf, path + [e]) == Parent(sha, Folded(sha, leaf, path), e)
  {
    FoldedConcat(sha, leaf, path, [e]);
    var node := Folded(sha, leaf, path);
    assert Folded(sha, node, [e]) == Folded(sha, Parent(sha, node, e), [e][1..]);
  }

  /** A path is never longer than the bit length of the accumulator's size. */
  lemma {:induction false} AccPathLength(sha: Sha256d, leaves: seq<Hash>, height: nat)
    requires height < |leaves|
    ensures |AccPath(sha, leaves, height)| <= BitLen(|leaves|)
    decreases |leaves|
  {
    var n := |leaves|;
    var p := TopSize(n);
    var k := TopSizeIsPow2(n);
    CeilLog2Least(p, k);
    if height < p {
      PathDepth(sha, leaves[..p], height);
    } else {
      AccPathLength(sha, leaves[p..], height - p);
      ShorterBy(n - p, k);
    }
  }

  lemma ShorterBy(n: nat, k: nat)
    requires n < Pow2(k)
    ensures BitLen(n) <= k
  {
    BitLenBounds(n);
    var j := BitLen(n) - 1;
    if j >= k {
      Pow2Monotone(k, j);
    }
  }

  lemma BitLenOfWord(n: nat)
    requires n < WORD
    ensures BitLen(n) <= 64
  {
    var width: nat := 64;
    WordWidth(width);
    ShorterBy(n, width);
  }

  /** So a path in an accumulator of fewer than 2^64 headers passes the depth limit of 255. */
  lemma AccPathFits(sha: Sha256d, leaves: seq<Hash>, height: nat)
    requires height < |leaves| < WORD
    ensures |AccPath(sha, leaves, height)| <= 64
  {
    AccPathLength(sha, leaves, height);
    BitLenOfWord(|leaves|);
  }

  // ---------------------------------------------------------------- appending is binary increment

  /** The peaks after pushing one leaf onto n: it joins as a mountain of size one and, while the
      last two mountains have equal size, they merge. */
  function Carry(sha: Sha256d, peaks: seq<Hash>, n: nat, x: Hash): seq<Hash>
    decreases n
  {
    if n % 2 == 0 || peaks == [] then peaks + [x]
    else Carry(sha, peaks[..|peaks| - 1], n / 2, HashPair(sha, peaks[|peaks| - 1], x))
  }

  lemma TopSizeHalves(n: nat, h: nat)
    requires h > 0 && n == 2 * h
    ensures TopSize(n) == 2 * TopSize(h) && TopSize(n + 1) == 2 * TopSize(h)
  {
    var k := TopSizeIsPow2(h);
    TopSizeAt(n, k + 1);
    TopSizeAt(n + 1, k + 1);
  }

  /** The first mountain of an even list is that of the level above, doubled. */
  lemma EvenSplit(sha: Sha256d, all: seq<Hash>) returns (left: seq<Hash>, right: seq<Hash>)
    requires all != [] && |all| % 2 == 0
    ensures Splits(all, left, right) && |left| > 1 && |right| % 2 == 0 && |right| < |all|
    ensures Splits(NextLevel(sha, all), NextLevel(sha, left), NextLevel(sha, right))
  {
    left, right := SplitAt(all);
    var n, h := |all|, |all| / 2;
    assert n == 2 * h && (n + 1) / 2 == h;
    TopSizeHalves(n, h);
    NextLevelSplits(sha, left, right);
  }

  lemma EvenSplitPlusOne(all: seq<Hash>, left: seq<Hash>, right: seq<Hash>, x: Hash)
    requires Splits(all, left, right) && |all| % 2 == 0
    ensures Splits(all + [x], left, right + [x])
  {
    TopSizeHalves(|all|, |all| / 2);
    assert all + [x] == left + (right + [x]);
  }

  lemma {:induction false} PeaksOneLevelUp(sha: Sha256d, leaves: seq<Hash>)
    requires |leaves| % 2 == 0
    ensures Peaks(sha, leaves) == Peaks(sha, NextLevel(sha, leaves))
    decreases |leaves|
  {
    if leaves != [] {
      var left, right := EvenSplit(sha, leaves);
      PeaksOneLevelUp(sha, right);
      PeaksJoin(sha, leaves, left, right);
      PeaksJoin(sha, NextLevel(sha, leaves), NextLevel(sha, left), NextLevel(sha, right));
      RootOneLevelUp(sha, left);
    }
  }

  lemma RootOneLevelUp(sha: Sha256d, leaves: seq<Hash>)
    requires |leaves| > 1
    ensures Root(sha, leaves) == Root(sha, NextLevel(sha, leaves))
  {
  }

  lemma {:induction false} PeaksOfEvenPlusOne(sha: Sha256d, leaves: seq<Hash>, x: Hash)
    requires |leaves| % 2 == 0
    ensures Peaks(sha, leaves + [x]) == Peaks(sha, leaves) + [x]
    decreases |leaves|
  {
    if leaves == [] {
      PeaksJoin(sha, leaves + [x], [x], []);
    } else {
      var left, right := EvenSplit(sha, leaves);
      PeaksJoin(sha, leaves, left, right);
      EvenSplitPlusOne(leaves, left, right, x);
      PeaksJoin(sha, leaves + [x], left, right + [x]);
      PeaksOfEvenPlusOne(sha, right, x);
    }
  }

  /** Appending a leaf increments the peaks in binary. */
  lemma {:induction false} AppendIsIncrement(sha: Sha256d, leaves: seq<Hash>, x: Hash)
    ensures Peaks(sha, leaves + [x]) == Carry(sha, Peaks(sha, leaves), |leaves|, x)
    decreases |leaves|
  {
    var n := |leaves|;
    if n % 2 == 0 {
      PeaksOfEvenPlusOne(sha, leaves, x);
    } else {
      var front, y := leaves[..n - 1], leaves[n - 1];
      var up, yx := NextLevel(sha, front), HashPair(sha, y, x);
      assert leaves == front + [y] && leaves + [x] == front + [y, x];
      NextLevelSplits(sha, front, [y, x]);
      assert NextLevel(sha, [y, x]) == [yx];
      PeaksOneLevelUp(sha, leaves + [x]);
      PeaksOneLevelUp(sha, front);
      PeaksOfEvenPlusOne(sha, front, y);
      AppendIsIncrement(sha, up, yx);
      assert |up| == n / 2;
      assert (Peaks(sha, up) + [y])[..|Peaks(sha, up)|] == Peaks(sha, up);
    }
  }

  /** An accumulator that keeps nothing but its size and its peaks. */
  function Incremental(sha: Sha256d, leaves: seq<Hash>): seq<Hash>
    decreases |leaves|
  {
    if leaves == [] then []
    else
      var n := |leaves| - 1;
      Carry(sha, Incremental(sha, leaves[..n]), n, leaves[n])
  }

  /** Recomputing the root from all leaves, as Append does, refines the accumulator that keeps
      only its peaks and merges on each append. */
  lemma {:induction false} RootRefinesIncremental(sha: Sha256d, leaves: seq<Hash>)
    ensures Peaks(sha, leaves) == Incremental(sha, leaves)
    ensures AccRoot(sha, leaves) == Bag(sha, Incremental(sha, leaves))
    decreases |leaves|
  {
    BagOfPeaks(sha, leaves);
    if leaves != [] {
      var n := |leaves| - 1;
      assert leaves[..n] + [leaves[n]] == leaves;
      RootRefinesIncremental(sha, leaves[..n]);
      AppendIsIncrement(sha, leaves[..n], leaves[n]);
    }
  }

  // ---------------------------------------------------------------- the accumulator

  function Digests(sha: Sha256d, headers: seq<Header>): (leaves: seq<Hash>)
    ensures |leaves| == |headers|
  {
    seq(|headers|, i requires 0 <= i < |headers| => sha(headers[i].bytes))
  }

  class MMR {
    var leaves: seq<Hash>

    constructor ()
      ensures leaves == []
    {
      leaves := [];
    }

    method Append(sha: Sha256d, header: Header) returns (root: Hash)
      requires |leaves| + 1 < WORD
      modifies this
      ensures leaves == old(leaves) + [sha(header.bytes)]
      ensures root == AccRoot(sha, leaves)
    {
      leaves := leaves + [sha(header.bytes)];
      root := CurrentRoot(sha);
    }

    method MountainPeaks(sha: Sha256d) returns (pk: seq<Hash>)
      requires |leaves| < WORD
      ensures pk == Peaks(sha, leaves)
    {
      var all := leaves;
      var sizes := MountainSizes(|all|);
      pk := PeaksOver(sha, all, sizes);
    }

    method CurrentRoot(sha: Sha256d) returns (root: Hash)
      requires |leaves| < WORD
      ensures root == AccRoot(sha, leaves)
    {
      if |leaves| == 0 {
        return ZeroHash();
      }
      var pk := MountainPeaks(sha);
      root := BagPeaks(sha, pk);
      BagOfPeaks(sha, leaves);
    }

    method ProveBlock(sha: Sha256d, height: nat) returns (r: Result<(seq<PathElem>, Hash)>)
      requires |leaves| < WORD
      ensures r.Err? <==> height >= |leaves|
      ensures r.Ok? ==> r.value == (AccPath(sha, leaves, height), AccRoot(sha, leaves))
    {
      if height >= |leaves| {
        return Err;
      }
      var mStart, mSize, mIdx := Locate(height);
      var mountain, h := leaves[mStart..mStart + mSize], height - mStart;
      PathByMountain(sha, leaves, height, mIdx, mStart, mSize, h, mountain);
      var path := ClimbMountain(sha, mountain, h);
      var pk := MountainPeaks(sha);
      path := CrossPeaks(sha, path, pk, mIdx);
      var root := CurrentRoot(sha);
      return Ok((path, root));
    }

    /** The search for the mountain that holds `height`. */
    method Locate(height: nat) returns (mStart: nat, mSize: nat, mIdx: nat)
      requires height < |leaves| < WORD
      ensures Holds(|leaves|, height, mIdx, mStart, mSize)
    {
      var n := |leaves|;
      var sizes := MountainSizes(n);
      mStart, mIdx := 0, 0;
      while mIdx < |sizes|
        invariant mIdx <= |sizes| && mStart == SumTo(sizes, mIdx) <= height
      {
        mSize := sizes[mIdx];
        SumToNext(sizes, mIdx);
        if height < mStart + mSize {
          SumToAll(sizes, mIdx + 1);
          return;
        }
        mStart, mIdx := mStart + mSize, mIdx + 1;
      }
      SumToAll(sizes, mIdx);
      assert false;
    }
  }

  /** The climb inside one mountain. */
  method ClimbMountain(sha: Sha256d, mountain: seq<Hash>, h: nat) returns (path: seq<PathElem>)
    requires h < |mountain|
    ensures path == PathOf(sha, mountain, h)
  {
    var built := BuildMerkleTree(sha, mountain);
    PathThroughLayers(sha, mountain, h);
    var climbed := MerklePath(built.value.1, h);
    path := climbed.value;
  }

  /** Sizes, none of them zero, that fit into `room` leaves. */
  ghost predicate Fit(sizes: seq<nat>, room: nat)
    decreases |sizes|
  {
    sizes == [] || (0 < sizes[0] <= room && Fit(sizes[1..], room - sizes[0]))
  }

  /** The roots of consecutive runs of the given sizes. */
  ghost function RootsOf(sha: Sha256d, rest: seq<Hash>, sizes: seq<nat>): seq<Hash>
    requires Fit(sizes, |rest|)
    decreases |sizes|
  {
    if sizes == [] then []
    else [Root(sha, rest[..sizes[0]])] + RootsOf(sha, rest[sizes[0]..], sizes[1..])
  }

  lemma {:induction false} RootsArePeaks(sha: Sha256d, rest: seq<Hash>, sizes: seq<nat>)
    requires sizes == Sizes(|rest|)
    ensures Fit(sizes, |rest|) && RootsOf(sha, rest, sizes) == Peaks(sha, rest)
    decreases |rest|
  {
    if rest != [] {
      var left, right := SplitAt(rest);
      var m := PopFirst(sizes, |rest|);
      assert |right| == m;
      RootsArePeaks(sha, right, sizes[1..]);
      PeaksJoin(sha, rest, left, right);
    }
  }

  lemma PopFirst(sizes: seq<nat>, n: nat) returns (m: nat)
    requires n > 0 && sizes == Sizes(n)
    ensures sizes != [] && sizes[0] == TopSize(n) && m == n - sizes[0] && sizes[1..] == Sizes(m)
  {
    m := n - TopSize(n);
    assert Sizes(n) == [TopSize(n)] + Sizes(m);
  }

  /** The loop of peaks, over the mountain sizes. */
  method PeaksOver(sha: Sha256d, leaves: seq<Hash>, sizes: seq<nat>) returns (pk: seq<Hash>)
    requires sizes == Sizes(|leaves|)
    ensures pk == Peaks(sha, leaves)
  {
    RootsArePeaks(sha, leaves, sizes);
    pk := [];
    var start: nat := 0;
    ghost var rest, left := leaves, sizes;
    for i := 0 to |sizes|
      invariant start <= |leaves| && rest == leaves[start..] && left == sizes[i..] && Fit(left, |rest|)
      invariant pk + RootsOf(sha, rest, left) == RootsOf(sha, leaves, sizes)
    {
      var sz := sizes[i];
      assert left[0] == sz && left[1..] == sizes[i + 1..];
      SliceLater(leaves, start, rest, sz);
      OneRun(sha, rest, left, pk);
      var built := BuildMerkleTree(sha, leaves[start..start + sz]);
      pk := pk + [built.value.0];
      rest, left := rest[sz..], left[1..];
      start := start + sz;
    }
  }

  lemma OneRun(sha: Sha256d, rest: seq<Hash>, sizes: seq<nat>, pk: seq<Hash>)
    requires Fit(sizes, |rest|) && sizes != []
    ensures Fit(sizes[1..], |rest[sizes[0]..]|)
    ensures pk + RootsOf(sha, rest, sizes)
         == pk + [Root(sha, rest[..sizes[0]])] + RootsOf(sha, rest[sizes[0]..], sizes[1..])
  {
  }

  lemma SliceLater(leaves: seq<Hash>, start: nat, rest: seq<Hash>, size: nat)
    requires start <= |leaves| && rest == leaves[start..] && size <= |rest|
    ensures leaves[start..start + size] == rest[..size] && leaves[start + size..] == rest[size..]
  {
  }

  /** The elements for the mountains left of number i, nearest first. */
  function Lefts(peaks: seq<Hash>, i: nat): seq<PathElem>
    requires i <= |peaks|
  {
    if i == 0 then [] else [PathElem(peaks[i - 1], false)] + Lefts(peaks, i - 1)
  }

  /** The element for the mountains on the right, if there are any. */
  function Right(sha: Sha256d, later: seq<Hash>): seq<PathElem> {
    if later == [] then [] else [PathElem(Bag(sha, later), true)]
  }

  /** From the peak of mountain k to the root. */
  method CrossPeaks(sha: Sha256d, inPath: seq<PathElem>, pk: seq<Hash>, k: nat) returns (path: seq<PathElem>)
    requires k < |pk|
    ensures path == inPath + Right(sha, pk[k + 1..]) + Lefts(pk, k)
  {
    path := inPath;
    if k < |pk| - 1 {
      var right := BagPeaks(sha, pk[k + 1..]);
      path := path + [PathElem(right, true)];
    }
    ghost var goal := path + Lefts(pk, k);
    for i := k downto 0
      invariant path + Lefts(pk, i) == goal
    {
      path := path + [PathElem(pk[i], false)];
    }
    assert path + Lefts(pk, 0) == path;
  }

  /** The leaves in front of mountain number k. */
  ghost function SumTo(sizes: seq<nat>, k: nat): nat
    requires k <= |sizes|
  {
    if k == 0 then 0 else sizes[0] + SumTo(sizes[1..], k - 1)
  }

  lemma {:induction false} SumToNext(sizes: seq<nat>, k: nat)
    requires k < |sizes|
    ensures SumTo(sizes, k + 1) == SumTo(sizes, k) + sizes[k]
  {
    if k > 0 {
      SumToNext(sizes[1..], k - 1);
    }
  }

  lemma {:induction false} SumToAll(sizes: seq<nat>, k: nat)
    requires k <= |sizes|
    ensures SumTo(sizes, k) <= Sum(sizes) && (k == |sizes| ==> SumTo(sizes, k) == Sum(sizes))
  {
    if k > 0 {
      SumToAll(sizes[1..], k - 1);
    }
  }

  /** Among n leaves, the one at `height` lies in mountain k, which starts at `start`. */
  ghost predicate Holds(n: nat, height: nat, k: nat, start: nat, size: nat) {
    && k < |Sizes(n)| && start == SumTo(Sizes(n), k) && size == Sizes(n)[k]
    && start <= height < start + size <= n
  }

  lemma HoldsFirst(n: nat, p: nat, height: nat, start: nat, size: nat)
    requires Holds(n, height, 0, start, size) && p == TopSize(n)
    ensures start == 0 && size == p
  {
  }

  lemma HoldsLater(n: nat, p: nat, height: nat, k: nat, start: nat, size: nat) returns (height': nat, start': nat)
    requires Holds(n, height, k, start, size) && k > 0 && p == TopSize(n)
    ensures height == p + height' && start == p + start' && Holds(n - p, height', k - 1, start', size)
  {
    assert Sizes(n) == [p] + Sizes(n - p) && Sizes(n)[1..] == Sizes(n - p);
    height', start' := height - p, start - p;
  }

  /** A path from a leaf: up its own mountain, across the later ones, across the earlier ones. */
  ghost function Route(sha: Sha256d, mountain: seq<Hash>, h: nat, pk: seq<Hash>, k: nat): seq<PathElem>
    requires h < |mountain| && k < |pk|
  {
    PathOf(sha, mountain, h) + Right(sha, pk[k + 1..]) + Lefts(pk, k)
  }

  lemma {:induction false} PathByMountain(sha: Sha256d, leaves: seq<Hash>, height: nat, k: nat, start: nat, size: nat,
                                          h: nat, mountain: seq<Hash>)
    requires height < |leaves| && Holds(|leaves|, height, k, start, size) && height == start + h
    requires mountain == leaves[start..start + size]
    ensures k < |Peaks(sha, leaves)|
    ensures AccPath(sha, leaves, height) == Route(sha, mountain, h, Peaks(sha, leaves), k)
    decreases k
  {
    var left, right := SplitAt(leaves);
    if k == 0 {
      HoldsFirst(|leaves|, |left|, height, start, size);
      assert mountain == left;
      RouteInFirst(sha, leaves, left, right, height);
    } else {
      var height', start' := StepRight(leaves, left, right, height, k, start, size, mountain);
      PathByMountain(sha, right, height', k - 1, start', size, h, mountain);
      RouteInLater(sha, leaves, left, right, height, height', k, mountain, h);
    }
  }

  /** The mountain as one of those right of the first. */
  lemma StepRight(leaves: seq<Hash>, left: seq<Hash>, right: seq<Hash>, height: nat, k: nat, start: nat, size: nat,
                  mountain: seq<Hash>) returns (height': nat, start': nat)
    requires Splits(leaves, left, right) && Holds(|leaves|, height, k, start, size) && k > 0
    requires mountain == leaves[start..start + size]
    ensures height == |left| + height' && start == |left| + start' && height' < |right|
    ensures Holds(|right|, height', k - 1, start', size) && mountain == right[start'..start' + size]
  {
    height', start' := HoldsLater(|leaves|, |left|, height, k, start, size);
    assert |right| == |leaves| - |left|;
    SliceOfRight(leaves, left, right, start', size);
  }

  lemma SliceOfRight(all: seq<Hash>, left: seq<Hash>, right: seq<Hash>, start: nat, size: nat)
    requires all == left + right && start + size <= |right|
    ensures all[|left| + start..|left| + start + size] == right[start..start + size]
  {
  }

  lemma RouteInFirst(sha: Sha256d, leaves: seq<Hash>, left: seq<Hash>, right: seq<Hash>, height: nat)
    requires Splits(leaves, left, right) && height < |left|
    ensures Peaks(sha, leaves) != []
    ensures AccPath(sha, leaves, height) == Route(sha, left, height, Peaks(sha, leaves), 0)
  {
    PeaksJoin(sha, leaves, left, right);
    BagOfPeaks(sha, right);
    var pk, p := Peaks(sha, leaves), TopSize(|leaves|);
    assert pk[1..] == Peaks(sha, right) && leaves[..p] == left && leaves[p..] == right;
    assert Lefts(pk, 0) == [];
  }

  lemma RouteInLater(sha: Sha256d, leaves: seq<Hash>, left: seq<Hash>, right: seq<Hash>, height: nat, rest: nat,
                     k: nat, mountain: seq<Hash>, h: nat)
    requires Splits(leaves, left, right) && 0 < |left| && height == |left| + rest && rest < |right|
    requires 0 < k <= |Peaks(sha, right)| && h < |mountain|
    requires AccPath(sha, right, rest) == Route(sha, mountain, h, Peaks(sha, right), k - 1)
    ensures k < |Peaks(sha, leaves)|
    ensures AccPath(sha, leaves, height) == Route(sha, mountain, h, Peaks(sha, leaves), k)
  {
    PeaksJoin(sha, leaves, left, right);
    var pk, later := Peaks(sha, leaves), Peaks(sha, right);
    AccPathLater(sha, leaves, left, right, height, rest);
    assert pk[1..] == later && pk[k + 1..] == later[k..];
    LeftsShift(pk, k);
    Reassociate(PathOf(sha, mountain, h), Right(sha, later[k..]), Lefts(later, k - 1), [PathElem(pk[0], false)]);
  }

  lemma Reassociate(a: seq<PathElem>, b: seq<PathElem>, c: seq<PathElem>, d: seq<PathElem>)
    ensures a + b + c + d == a + b + (c + d)
  {
  }

  lemma AccPathLater(sha: Sha256d, leaves: seq<Hash>, left: seq<Hash>, right: seq<Hash>, height: nat, rest: nat)
    requires Splits(leaves, left, right) && 0 < |left| && height == |left| + rest && rest < |right|
    ensures AccPath(sha, leaves, height) == AccPath(sha, right, rest) + [PathElem(Root(sha, left), false)]
  {
    var p := TopSize(|leaves|);
    assert leaves[..p] == left && leaves[p..] == right;
  }

  lemma {:induction false} LeftsShift(pk: seq<Hash>, k: nat)
    requires 0 < k <= |pk|
    ensures Lefts(pk, k) == Lefts(pk[1..], k - 1) + [PathElem(pk[0], false)]
  {
    if k > 1 {
      LeftsShift(pk, k - 1);
    }
  }

  /** Once provable, always provable: after any number of further appends every earlier header
      still has a path, within the depth limit, from the same leaf to the new root. */
  lemma StaysProvable(sha: Sha256d, before: seq<Header>, after: seq<Header>, height: nat)
    requires height < |before| && before <= after && |after| < WORD
    ensures var leaves := Digests(sha, after);
            VerifyBlockInChain(sha, before[height], AccPath(sha, leaves, height), AccRoot(sha, leaves))
  {
    var leaves := Digests(sha, after);
    assert leaves[height] == sha(after[height].bytes) && after[height] == before[height];
    AccPathFolds(sha, leaves, height);
    AccPathFits(sha, leaves, height);
  }

  // ---------------------------------------------------------------- verification

  predicate VerifyBlockInChain(sha: Sha256d, header: Header, path: seq<PathElem>, accRoot: Hash) {
    |path| <= MAX_DEPTH && Folded(sha, sha(header.bytes), path) == accRoot
  }

  /** The first field that carries the root, if any does. */
  function Carrier(fields: seq<FieldLeaf>, accRoot: Hash): (f: Option<FieldLeaf>)
    ensures f.Some? ==> f.value in fields && f.value.bytes == accRoot.bytes
    ensures f.None? ==> forall g :: g in fields ==> g.bytes != accRoot.bytes
  {
    if fields == [] then None
    else if fields[0].bytes == accRoot.bytes then Some(fields[0])
    else Carrier(fields[1..], accRoot)
  }

  /** Field number k is the first to carry the root. */
  ghost predicate FirstWith(fields: seq<FieldLeaf>, accRoot: Hash, k: nat) {
    k < |fields| && fields[k].bytes == accRoot.bytes && forall i :: 0 <= i < k ==> fields[i].bytes != accRoot.bytes
  }

  lemma {:induction false} FirstCarries(fields: seq<FieldLeaf>, accRoot: Hash, k: nat)
    requires FirstWith(fields, accRoot, k)
    ensures Carrier(fields, accRoot) == Some(fields[k])
    decreases k
  {
    if k > 0 {
      assert fields[0].bytes != accRoot.bytes;
      assert FirstWith(fields[1..], accRoot, k - 1);
      FirstCarries(fields[1..], accRoot, k - 1);
    }
  }

  predicate AnchorCloses(sha: Sha256d, accRoot: Hash, fields: seq<FieldLeaf>, l0: seq<PathElem>, l1: seq<PathElem>,
                         l2: seq<PathElem>, blockRoot: Hash)
  {
    && |l0| + |l1| + |l2| <= MAX_DEPTH
    && Carrier(fields, accRoot).Some?
    && Folded(sha, LeafHash(sha, Carrier(fields, accRoot).value), l0 + l1 + l2) == blockRoot
  }

  method VerifyAnchor(sha: Sha256d, accRoot: Hash, fields: seq<FieldLeaf>, l0: seq<PathElem>, l1: seq<PathElem>,
                      l2: seq<PathElem>, blockRoot: Hash) returns (ok: bool)
    ensures ok == AnchorCloses(sha, accRoot, fields, l0, l1, l2, blockRoot)
  {
    if |l0| + |l1| + |l2| > MAX_DEPTH {
      return false;
    }
    var leaf, found := ZeroHash(), false;
    for i := 0 to |fields|
      invariant !found && Carrier(fields, accRoot) == Carrier(fields[i..], accRoot)
    {
      if fields[i].bytes == accRoot.bytes {
        leaf, found := LeafHash(sha, fields[i]), true;
        break;
      }
    }
    if !found {
      return false;
    }
    var mtxid := Fold(sha, leaf, l0);
    var sub := Fold(sha, mtxid, l1);
    var root := Fold(sha, sub, l2);
    FoldedConcat(sha, leaf, l0, l1);
    FoldedConcat(sha, leaf, l0 + l1, l2);
    return root == blockRoot;
  }
}
