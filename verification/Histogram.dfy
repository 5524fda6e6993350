/** The bins of message sizes and communicator sizes: how a bin is chosen, what its label says, and
    that the table of bins is indexed within its bounds. */
module Histogram {
  import opened Powers

  /** `mpiPi_histogram_t`; custom intervals are declared but every value then falls in bin zero. */
  datatype Histogram = Histogram(firstBinMax: int, histSize: nat, custom: bool)

  /** The first value of a bin; each bin is as wide as all before it together. */
  function First(m: nat, bin: nat): nat {
    if bin == 0 then 0 else (m + 1) * Pow2(bin - 1)
  }

  lemma FirstGrows(m: nat, bin: nat)
    ensures First(m, bin) < First(m, bin + 1)
    ensures bin > 0 ==> First(m, bin + 1) == 2 * First(m, bin)
  {
    if bin > 0 {
      var p := Pow2(bin - 1);
      assert Pow2(bin) == 2 * p;
      assert (m + 1) * (2 * p) == 2 * ((m + 1) * p);
      Pow2Monotone(0, bin - 1);
      assert (m + 1) * p > 0;
    }
  }

  lemma {:induction false} FirstMonotone(m: nat, b: nat, c: nat)
    requires b <= c
    ensures First(m, b) <= First(m, c)
    decreases c
  {
    if b < c {
      FirstMonotone(m, b, c - 1);
      FirstGrows(m, c - 1);
    }
  }

  /** The smallest and the largest value that `get_histogram_bin_str` prints for a bin. */
  method BinLabel(h: Histogram, v: nat) returns (min: int, max: int)
    ensures h.firstBinMax >= 0 ==> min == First(h.firstBinMax, v) && max == First(h.firstBinMax, v + 1) - 1
    ensures v == 0 ==> min == 0 && max == h.firstBinMax
    ensures v > 0 ==> min == (h.firstBinMax + 1) * Pow2(v - 1) && max == 2 * min - 1
  {
    if v == 0 {
      min, max := 0, h.firstBinMax;
    } else {
      min := (h.firstBinMax + 1) * Pow2(v - 1);
      max := min * 2 - 1;
      if h.firstBinMax >= 0 { FirstGrows(h.firstBinMax, v); }
    }
  }

  /** The label of a bin contains a value. */
  predicate InBin(m: nat, bin: nat, v: nat) {
    First(m, bin) <= v < First(m, bin + 1)
  }

  /** No value is in two bins. */
  lemma InOneBin(m: nat, b: nat, c: nat, v: nat)
    requires InBin(m, b, v) && InBin(m, c, v)
    ensures b == c
  {
    if b < c { FirstMonotone(m, b + 1, c); }
    if c < b { FirstMonotone(m, c + 1, b); }
  }

  lemma {:induction false} PassesEvery(m: nat, v: nat)
    ensures v < First(m, v + 1)
  {
    if v > 0 {
      PassesEvery(m, v - 1);
      FirstGrows(m, v);
    } else {
      FirstGrows(m, 0);
    }
  }

  /** Every value is in a bin. */
  lemma {:induction false} InSomeBin(m: nat, v: nat, c: nat) returns (bin: nat)
    requires v < First(m, c)
    ensures InBin(m, bin, v) && bin < c
    decreases c
  {
    if c == 1 || First(m, c - 1) <= v {
      bin := c - 1;
    } else {
      bin := InSomeBin(m, v, c - 1);
    }
  }

  /** The labels partition the natural numbers. */
  lemma LabelsPartition(m: nat, v: nat)
    ensures exists bin :: InBin(m, bin, v) && forall c :: InBin(m, c, v) ==> c == bin
  {
    PassesEvery(m, v);
    var bin := InSomeBin(m, v, v + 1);
    forall c | InBin(m, c, v) ensures c == bin {
      InOneBin(m, bin, c, v);
    }
  }

  /** Halving `bin` times, with the remainder forgotten. */
  lemma {:induction false} Halved(v: nat, wv: nat, bin: nat)
    requires Pow2(bin) > 0 && wv == v / Pow2(bin)
    ensures Pow2(bin + 1) > 0 && wv / 2 == v / Pow2(bin + 1)
  {
    var p := Pow2(bin);
    assert Pow2(bin + 1) == 2 * p;
    HalfOfQuotient(v, p);
  }

  lemma {:induction false} HalfOfQuotient(v: nat, p: nat)
    requires p > 0
    ensures v / p / 2 == v / (2 * p)
  {
    var q, r := v / p, v % p;
    assert v == q * p + r;
    var h, s := q / 2, q % 2;
    assert q == 2 * h + s;
    assert v == (2 * h + s) * p + r == h * (2 * p) + (s * p + r) by {
      assert (2 * h + s) * p == h * (2 * p) + s * p;
    }
    assert 0 <= s * p + r < 2 * p;
    QuotientIs(v, 2 * p, h, s * p + r);
  }

  lemma SmallMultiple(a: int, d: int)
    requires -d < a * d < d
    ensures a == 0
  {
    if a >= 1 {
      AtLeastOnce(a, d);
    } else if a <= -1 {
      AtLeastOnce(-a, d);
    }
  }

  lemma AtLeastOnce(a: int, d: int)
    requires a >= 1 && d > 0
    ensures a * d >= d && -a * d == -(a * d)
  {
    assert (a - 1) * d >= 0;
  }

  lemma {:induction false} QuotientIs(v: nat, d: nat, q: nat, r: nat)
    requires v == q * d + r && r < d
    ensures v / d == q
  {
    var x, y := v / d, v % d;
    assert v == x * d + y && 0 <= y < d;
    assert (x - q) * d == r - y;
    SmallMultiple(x - q, d);
  }

  lemma TimesMonotone(a: nat, b: nat, p: nat)
    requires a <= b
    ensures a * p <= b * p
  {
    assert b * p == a * p + (b - a) * p;
  }

  lemma Above(m: nat, v: nat, p: nat)
    requires p > 0
    ensures v / p > m <==> v >= (m + 1) * p
  {
    var q: int, r: int := v / p, v % p;
    assert v == q * p + r && 0 <= r < p;
    if q > m {
      TimesMonotone(m + 1, q, p);
    } else if 0 <= q {
      TimesMonotone(q + 1, m + 1, p);
      assert (q + 1) * p == q * p + p;
    }
  }

  /** The halved value is still above the first bin exactly when the value lies beyond this bin. */
  lemma {:induction false} Beyond(m: nat, v: nat, bin: nat)
    requires Pow2(bin) > 0
    ensures v / Pow2(bin) > m <==> v >= First(m, bin + 1)
  {
    Above(m, v, Pow2(bin));
  }

  /** `get_histogram_bin`: the bin whose label contains the value, or the number of bins when there is
      none; and that is so exactly when the value is beyond the last label. */
  method GetHistogramBin(h: Histogram, val: int) returns (bin: nat)
    ensures bin <= h.histSize
    ensures !h.custom && h.firstBinMax >= 0 && val >= 0 ==>
      (bin < h.histSize <==> val < First(h.firstBinMax, h.histSize)) &&
      (bin < h.histSize ==> InBin(h.firstBinMax, bin, val))
    ensures h.custom || (h.firstBinMax >= 0 && val < 0) ==> bin == 0
  {
    var wv := val;
    ghost var m := h.firstBinMax;
    bin := 0;
    if !h.custom {
      while wv > h.firstBinMax && bin < h.histSize
        invariant bin <= h.histSize
        invariant m >= 0 && val < 0 ==> bin == 0 && wv == val
        invariant m >= 0 && val >= 0 ==> Pow2(bin) > 0 && wv == val / Pow2(bin) && val >= First(m, bin)
        decreases h.histSize - bin
      {
        if m >= 0 {
          Beyond(m, val, bin);
          Halved(val, wv, bin);
        }
        wv := wv / 2;
        bin := bin + 1;
      }
      if m >= 0 && val >= 0 {
        Beyond(m, val, bin);
        if bin < h.histSize {
          FirstMonotone(m, bin + 1, h.histSize);
        }
      }
    }
  }

  // ---------- The tables that are indexed by bins ----------

  const INT_LIMIT := 0x8000_0000

  /** With at least 29 bins above a first bin up to seven, every value of a 32-bit integer has a bin. */
  lemma IntsHaveBins(histSize: nat)
    requires histSize >= 29
    ensures INT_LIMIT <= First(7, histSize)
  {
    assert Pow2(28) == 0x1000_0000 by {
      assert Pow2(7) == 128;
      Pow2Double(7);
      Pow2Double(14);
    }
    Pow2Monotone(28, histSize - 1);
  }

  /** The ends of a label are computed within 32 bits exactly up to bin 27. */
  lemma LabelsFit(v: nat)
    ensures First(7, v + 1) < INT_LIMIT <==> v <= 27
  {
    assert Pow2(27) == 0x800_0000 && Pow2(28) == 0x1000_0000 by {
      assert Pow2(7) == 128;
      Pow2Double(7);
      Pow2Double(14);
    }
    if v <= 27 { Pow2Monotone(v, 27); } else { Pow2Monotone(28, v); }
  }

  const COMM_HISTCNT := 32
  const SIZE_HISTCNT := 32

  /** `mpiPi_msg_stat_t` */
  class MessageStats {
    const commHist: Histogram
    const sizeHist: Histogram
    const stats: array3<real>

    constructor (nfunc: nat)
      ensures fresh(stats) && stats.Length0 == nfunc && stats.Length1 == COMM_HISTCNT && stats.Length2 == SIZE_HISTCNT
      ensures forall x, y, z :: 0 <= x < nfunc && 0 <= y < COMM_HISTCNT && 0 <= z < SIZE_HISTCNT ==>
        stats[x, y, z] == 0.0
      ensures commHist == Histogram(7, COMM_HISTCNT, false) && sizeHist == Histogram(7, SIZE_HISTCNT, false)
    {
      commHist, sizeHist := Histogram(7, COMM_HISTCNT, false), Histogram(7, SIZE_HISTCNT, false);
      stats := new real[nfunc, COMM_HISTCNT, SIZE_HISTCNT]((_, _, _) => 0.0);
    }

    /** Adds to the cell of the operation and of the two bins whose labels contain the values; the bins
        are within the table, and no other cell changes. */
    method Update(opIdx: nat, commSize: int, size: int, amount: real) returns (commBin: nat, sizeBin: nat)
      requires commHist == Histogram(7, COMM_HISTCNT, false) && sizeHist == Histogram(7, SIZE_HISTCNT, false)
      requires stats.Length1 == COMM_HISTCNT && stats.Length2 == SIZE_HISTCNT && opIdx < stats.Length0
      requires 0 <= commSize < INT_LIMIT && 0 <= size < INT_LIMIT
      modifies stats
      ensures commBin < COMM_HISTCNT && InBin(7, commBin, commSize) && sizeBin < SIZE_HISTCNT && InBin(7, sizeBin, size)
      ensures forall x, y, z :: 0 <= x < stats.Length0 && 0 <= y < COMM_HISTCNT && 0 <= z < SIZE_HISTCNT ==>
        stats[x, y, z] == old(stats[x, y, z]) + if x == opIdx && y == commBin && z == sizeBin then amount else 0.0
    {
      IntsHaveBins(COMM_HISTCNT);
      IntsHaveBins(SIZE_HISTCNT);
      commBin := GetHistogramBin(commHist, commSize);
      sizeBin := GetHistogramBin(sizeHist, size);
      stats[opIdx, commBin, sizeBin] := stats[opIdx, commBin, sizeBin] + amount;
    }

    /** The table is laid out as `nfunc` operations by the bins. */
    predicate Fits(nfunc: nat) {
      stats.Length0 == nfunc && stats.Length1 == COMM_HISTCNT && stats.Length2 == SIZE_HISTCNT
    }

    method MergeRow(src: MessageStats, nfunc: nat, x: nat, y: nat)
      requires Fits(nfunc) && src.Fits(nfunc) && src.stats != stats && x < nfunc && y < COMM_HISTCNT
      modifies stats
      ensures forall i, j, k :: 0 <= i < nfunc && 0 <= j < COMM_HISTCNT && 0 <= k < SIZE_HISTCNT ==>
        stats[i, j, k] == old(stats[i, j, k]) + if i == x && j == y then src.stats[i, j, k] else 0.0
    {
      for z := 0 to SIZE_HISTCNT
        invariant forall i, j, k :: 0 <= i < nfunc && 0 <= j < COMM_HISTCNT && 0 <= k < SIZE_HISTCNT ==>
          stats[i, j, k] == old(stats[i, j, k]) + if i == x && j == y && k < z then src.stats[i, j, k] else 0.0
      {
        stats[x, y, z] := stats[x, y, z] + src.stats[x, y, z];
      }
    }

    method MergePlane(src: MessageStats, nfunc: nat, x: nat)
      requires Fits(nfunc) && src.Fits(nfunc) && src.stats != stats && x < nfunc
      modifies stats
      ensures forall i, j, k :: 0 <= i < nfunc && 0 <= j < COMM_HISTCNT && 0 <= k < SIZE_HISTCNT ==>
        stats[i, j, k] == old(stats[i, j, k]) + if i == x then src.stats[i, j, k] else 0.0
    {
      for y := 0 to COMM_HISTCNT
        invariant forall i, j, k :: 0 <= i < nfunc && 0 <= j < COMM_HISTCNT && 0 <= k < SIZE_HISTCNT ==>
          stats[i, j, k] == old(stats[i, j, k]) + if i == x && j < y then src.stats[i, j, k] else 0.0
      {
        MergeRow(src, nfunc, x, y);
      }
    }

    /** Every cell of `src` is added to the same cell here. */
    method Merge(src: MessageStats, nfunc: nat)
      requires Fits(nfunc) && src.Fits(nfunc) && src.stats != stats
      modifies stats
      ensures forall i, j, k :: 0 <= i < nfunc && 0 <= j < COMM_HISTCNT && 0 <= k < SIZE_HISTCNT ==>
        stats[i, j, k] == old(stats[i, j, k]) + src.stats[i, j, k]
    {
      for x := 0 to nfunc
        invariant forall i, j, k :: 0 <= i < nfunc && 0 <= j < COMM_HISTCNT && 0 <= k < SIZE_HISTCNT ==>
          stats[i, j, k] == old(stats[i, j, k]) + if i < x then src.stats[i, j, k] else 0.0
      {
        MergePlane(src, nfunc, x);
      }
    }

    /** All threads are merged in. Nothing is cleared before, so a cell is what the threads have in it if and
        only if it was empty: a second report finds the first one still there. */
    method MergeThreads(threads: seq<MessageStats>, nfunc: nat)
      requires Fits(nfunc) && forall m <- threads :: m.Fits(nfunc) && m.stats != stats
      modifies stats
      ensures forall i, j, k :: 0 <= i < nfunc && 0 <= j < COMM_HISTCNT && 0 <= k < SIZE_HISTCNT ==>
        stats[i, j, k] == old(stats[i, j, k]) + CellSum(threads, nfunc, i, j, k) &&
        (stats[i, j, k] == CellSum(threads, nfunc, i, j, k) <==> old(stats[i, j, k]) == 0.0)
    {
      for n := 0 to |threads|
        invariant forall i, j, k :: 0 <= i < nfunc && 0 <= j < COMM_HISTCNT && 0 <= k < SIZE_HISTCNT ==>
          stats[i, j, k] == old(stats[i, j, k]) + CellSum(threads[..n], nfunc, i, j, k)
      {
        assert threads[..n + 1][..n] == threads[..n];
        Merge(threads[n], nfunc);
      }
      assert threads[..|threads|] == threads;
    }
  }

  /** What some threads have in a cell together. */
  ghost function CellSum(threads: seq<MessageStats>, nfunc: nat, x: nat, y: nat, z: nat): real
    requires forall m <- threads :: m.Fits(nfunc)
    requires x < nfunc && y < COMM_HISTCNT && z < SIZE_HISTCNT
    reads set m <- threads :: m.stats
    decreases |threads|
  {
    if threads == [] then 0.0
    else
      var last := threads[|threads| - 1];
      assert last.Fits(nfunc);
      CellSum(threads[..|threads| - 1], nfunc, x, y, z) + last.stats[x, y, z]
  }
}
