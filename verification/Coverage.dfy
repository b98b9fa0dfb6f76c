/** accumulator/accumulator.go:183-242: heights for which no miner committed the accumulator are
    reported as gaps, and a lookup says whether it fell into one. */
module Coverage {
  import opened Bits

  datatype Gap = Gap(from: nat, to: nat)

  ghost predicate Inside(h: nat, g: Gap) { g.from <= h <= g.to }

  /** A longest run of uncommitted heights within [0, tip]. */
  ghost predicate MaximalRun(g: Gap, committed: seq<nat>, tip: nat) {
    && g.from <= g.to <= tip
    && (forall h :: Inside(h, g) ==> h !in committed)
    && (g.from == 0 || g.from - 1 in committed)
    && (g.to == tip || g.to + 1 in committed)
  }

  ghost predicate Covered(h: nat, gaps: seq<Gap>) { exists i :: 0 <= i < |gaps| && Inside(h, gaps[i]) }

  /** Ascending, and at least one committed height apart. */
  ghost predicate Separated(gaps: seq<Gap>) {
    forall i, j :: 0 <= i < j < |gaps| ==> gaps[i].to + 1 < gaps[j].from
  }

  /** The gaps are the longest uncommitted runs, all of them, once each and in order. */
  ghost predicate ExactGaps(gaps: seq<Gap>, committed: seq<nat>, tip: nat) {
    && (forall i :: 0 <= i < |gaps| ==> MaximalRun(gaps[i], committed, tip))
    && Separated(gaps)
    && (forall h: nat :: h <= tip ==> (Covered(h, gaps) <==> h !in committed))
  }

  /** What the scan knows before it looks at height h. */
  ghost predicate Scanned(gaps: seq<Gap>, inGap: bool, from: nat, h: nat, committed: seq<nat>, tip: nat) {
    && (forall i :: 0 <= i < |gaps| ==> MaximalRun(gaps[i], committed, tip) && gaps[i].to < h)
    && Separated(gaps)
    && (inGap ==> OpenRun(gaps, from, h, committed))
    && (!inGap && h > 0 ==> h - 1 in committed)
    && (forall k: nat :: k < h ==> (Covered(k, gaps) || (inGap && from <= k) <==> k !in committed))
  }

  /** A run that started at `from` and has not ended below h. */
  ghost predicate OpenRun(gaps: seq<Gap>, from: nat, h: nat, committed: seq<nat>) {
    && from < h && (from == 0 || from - 1 in committed)
    && (forall k :: from <= k < h ==> k !in committed)
    && (forall i :: 0 <= i < |gaps| ==> gaps[i].to + 1 < from)
  }

  lemma CloseRun(gaps: seq<Gap>, from: nat, h: nat, committed: seq<nat>, tip: nat) returns (more: seq<Gap>)
    requires Scanned(gaps, true, from, h, committed, tip) && h <= tip + 1
    requires h == tip + 1 || h in committed
    ensures more == gaps + [Gap(from, h - 1)] && Separated(more)
    ensures forall i :: 0 <= i < |more| ==> MaximalRun(more[i], committed, tip) && more[i].to < h
    ensures forall k: nat :: k < h ==> (Covered(k, more) <==> k !in committed)
  {
    var last := Gap(from, h - 1);
    more := gaps + [last];
    forall k: nat | k < h ensures Covered(k, more) <==> k !in committed {
      if k >= from {
        assert more[|gaps|] == last && Inside(k, last);
      } else if Covered(k, gaps) {
        var i :| 0 <= i < |gaps| && Inside(k, gaps[i]);
        assert more[i] == gaps[i];
      }
    }
  }

  /** One turn of the scan, at height h. */
  lemma ScanStep(gaps: seq<Gap>, inGap: bool, from: nat, h: nat, committed: seq<nat>, tip: nat,
                 gaps': seq<Gap>, inGap': bool, from': nat, next: nat)
    requires next == h + 1
    requires Scanned(gaps, inGap, from, h, committed, tip) && h <= tip
    requires h in committed && inGap ==> gaps' == gaps + [Gap(from, h - 1)] && !inGap'
    requires h in committed && !inGap ==> gaps' == gaps && !inGap'
    requires h !in committed ==> gaps' == gaps && inGap' && from' == if inGap then from else h
    ensures Scanned(gaps', inGap', from', next, committed, tip)
  {
    if h in committed && inGap {
      var more := CloseRun(gaps, from, h, committed, tip);
    }
    assert h !in committed || !Covered(h, gaps);
  }

  lemma ScanEnd(gaps: seq<Gap>, inGap: bool, from: nat, h: nat, committed: seq<nat>, tip: nat, all: seq<Gap>)
    requires Scanned(gaps, inGap, from, h, committed, tip) && h == tip + 1
    requires all == if inGap then gaps + [Gap(from, tip)] else gaps
    ensures ExactGaps(all, committed, tip)
  {
    if inGap {
      var more := CloseRun(gaps, from, h, committed, tip);
      assert more == all;
    }
  }

  method Present(committed: seq<nat>) returns (present: set<nat>)
    ensures forall h :: h in present <==> h in committed
  {
    present := {};
    for i := 0 to |committed|
      invariant forall h :: h in present <==> h in committed[..i]
    {
      present := present + {committed[i]};
    }
    assert committed[..|committed|] == committed;
  }

  /** The scan counts in uint64 up to and including the tip, so it ends only below the largest one. */
  method CoverageGaps(committed: seq<nat>, tip: nat) returns (gaps: seq<Gap>)
    requires tip < WORD - 1
    ensures ExactGaps(gaps, committed, tip)
  {
    var present := Present(committed);
    gaps := [];
    var inGap, from: nat, h: nat := false, 0, 0;
    while h <= tip
      invariant h <= tip + 1
      invariant Scanned(gaps, inGap, from, h, committed, tip)
    {
      ghost var before, was, start := gaps, inGap, from;
      if h in present {
        if inGap {
          gaps := gaps + [Gap(from, h - 1)];
          inGap := false;
        }
      } else if !inGap {
        from := h;
        inGap := true;
      }
      ScanStep(before, was, start, h, committed, tip, gaps, inGap, from, h + 1);
      h := h + 1;
    }
    ghost var before := gaps;
    if inGap {
      gaps := gaps + [Gap(from, tip)];
    }
    ScanEnd(before, inGap, from, h, committed, tip, gaps);
  }

  /** There is only one answer: the contract determines the list. */
  lemma GapsUnique(a: seq<Gap>, b: seq<Gap>, committed: seq<nat>, tip: nat)
    requires ExactGaps(a, committed, tip) && ExactGaps(b, committed, tip)
    ensures a == b
  {
    GapsPrefix(a, b, committed, tip, |a|);
    GapsPrefix(b, a, committed, tip, |b|);
  }

  /** Two longest runs that share a height are one run. */
  lemma SameRun(g: Gap, k: Gap, committed: seq<nat>, tip: nat, h: nat)
    requires MaximalRun(g, committed, tip) && MaximalRun(k, committed, tip) && Inside(h, g) && Inside(h, k)
    ensures g == k
  {
    assert g.from > 0 ==> !Inside(g.from - 1, k);
    assert k.from > 0 ==> !Inside(k.from - 1, g);
    assert g.to < tip ==> !Inside(g.to + 1, k);
    assert k.to < tip ==> !Inside(k.to + 1, g);
  }

  /** Beyond a common front, the next run of one answer is somewhere in the other. */
  lemma FoundLater(a: seq<Gap>, b: seq<Gap>, committed: seq<nat>, tip: nat, m: nat) returns (j: nat)
    requires ExactGaps(a, committed, tip) && ExactGaps(b, committed, tip)
    requires m < |a| && m <= |b| && forall i :: 0 <= i < m ==> a[i] == b[i]
    ensures m <= j < |b| && b[j] == a[m]
  {
    var h := a[m].from;
    assert Inside(h, a[m]) && Covered(h, a) && Covered(h, b);
    j :| 0 <= j < |b| && Inside(h, b[j]);
    SameRun(a[m], b[j], committed, tip, h);
  }

  lemma {:induction false} GapsPrefix(a: seq<Gap>, b: seq<Gap>, committed: seq<nat>, tip: nat, n: nat)
    requires ExactGaps(a, committed, tip) && ExactGaps(b, committed, tip) && n <= |a|
    ensures n <= |b| && forall i :: 0 <= i < n ==> a[i] == b[i]
    decreases n
  {
    if n > 0 {
      GapsPrefix(a, b, committed, tip, n - 1);
      NextAgrees(a, b, committed, tip, n - 1);
    }
  }

  lemma NextAgrees(a: seq<Gap>, b: seq<Gap>, committed: seq<nat>, tip: nat, m: nat)
    requires ExactGaps(a, committed, tip) && ExactGaps(b, committed, tip)
    requires m < |a| && m <= |b| && forall i :: 0 <= i < m ==> a[i] == b[i]
    ensures m < |b| && a[m] == b[m]
  {
    var j := FoundLater(a, b, committed, tip, m);
    var i := FoundLater(b, a, committed, tip, m);
    SamePlace(a, b, m, i, j);
  }

  lemma SamePlace(a: seq<Gap>, b: seq<Gap>, m: nat, i: nat, j: nat)
    requires Separated(a) && Separated(b) && m <= i < |a| && m <= j < |b|
    requires b[j] == a[m] && a[i] == b[m]
    requires a[m].from <= a[m].to && b[m].from <= b[m].to
    ensures a[m] == b[m]
  {
    assert b[m].from <= b[j].from && a[m].from <= a[i].from;
  }

  // ---------------------------------------------------------------- nearest committed height

  /** int64(c) */
  function Signed(c: nat): int
    requires c < WORD
  {
    if c < WORD / 2 then c else c - WORD
  }

  /** Heights the search can return: committed, not above `height`, not negative once converted. */
  ghost predicate Candidate(c: nat, height: nat, committed: seq<nat>) {
    c in committed && c <= height && c < WORD / 2
  }

  /** The answer is the largest candidate, or zero if there is none. */
  ghost predicate Nearest(height: nat, committed: seq<nat>, h: nat, inGap: bool) {
    && (forall c: nat :: Candidate(c, height, committed) ==> c <= h)
    && ((exists c: nat :: Candidate(c, height, committed)) ==>
          Candidate(h, height, committed) && inGap == (height !in committed))
    && ((forall c: nat :: !Candidate(c, height, committed)) ==> h == 0 && inGap)
  }

  method NearestCommitted(height: nat, committed: seq<nat>) returns (h: nat, inGap: bool)
    requires height < WORD && forall c :: c in committed ==> c < WORD
    ensures Nearest(height, committed, h, inGap)
  {
    var best, exact := -1, false;
    for i := 0 to |committed|
      invariant exact <==> height in committed[..i]
      invariant -1 <= best
      invariant best >= 0 ==> Candidate(best, height, committed[..i])
      invariant forall c :: c in committed[..i] && c <= height && c < WORD / 2 ==> c <= best
    {
      var c := committed[i];
      if c == height {
        exact := true;
      }
      if c <= height && Signed(c) > best {
        best := Signed(c);
      }
      assert committed[..i + 1] == committed[..i] + [c];
    }
    assert committed[..|committed|] == committed;
    if best < 0 {
      return 0, true;
    }
    return best, !exact;
  }

  /** Gap honesty: below 2^63 a lookup reports a gap exactly when the height lies in a reported
      gap, and otherwise gives the height itself. */
  lemma GapHonesty(gaps: seq<Gap>, committed: seq<nat>, tip: nat, height: nat, h: nat, inGap: bool)
    requires ExactGaps(gaps, committed, tip) && Nearest(height, committed, h, inGap)
    requires height <= tip && height < WORD / 2
    ensures inGap <==> Covered(height, gaps)
    ensures !inGap ==> h == height
  {
    assert Candidate(height, height, committed) <==> height in committed;
  }

  /** Beyond 2^63 the conversion to int64 breaks the lookup for every committed height: it calls
      the height uncommitted, or it names a different height. */
  lemma NearestBreaks(committed: seq<nat>, height: nat, h: nat, inGap: bool)
    requires WORD / 2 <= height < WORD && height in committed && Nearest(height, committed, h, inGap)
    ensures inGap || h != height
  {
  }

  /** So a committed height is reported as itself exactly when it is below 2^63. */
  lemma FoundIff(committed: seq<nat>, height: nat, h: nat, inGap: bool)
    requires height < WORD && height in committed && Nearest(height, committed, h, inGap)
    ensures !inGap && h == height <==> height < WORD / 2
  {
    assert Candidate(height, height, committed) <==> height < WORD / 2;
  }
}
