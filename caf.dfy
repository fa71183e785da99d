/** The cross-ambiguity correlator: a surface over time- and frequency-shift hypotheses
    between two received signals, and the location of its peak. Three variants: direct,
    transform-accelerated and spectral-rolled. The FFT, its inverse, exp and |.| are
    parameters. */
module Caf {
  import opened Outcome
  import opened Numeric
  import opened Complex

  /** A transform that returns as many bins as it is given samples. */
  ghost predicate PreservesLength(f: seq<C> -> seq<C>)
  {
    forall x: seq<C> :: |f(x)| == |x|
  }

  /** A `rows` by `cols` matrix as a sequence of rows. */
  predicate IsMatrix<T>(m: seq<seq<T>>, rows: nat, cols: nat)
  {
    |m| == rows && forall j :: 0 <= j < rows ==> |m[j]| == cols
  }

  /** First-index coordinates (row, column) into a surface. */
  datatype Index2 = Index2(row: nat, col: nat)

  /** What the direct correlator returns: the surface and the shifts at its peak. */
  datatype NaiveResult = NaiveResult(surface: seq<seq<C>>, timeShift: int, freqShift: real)

  /** What the two other correlators return: also the peak and median magnitudes. */
  datatype CafResult = CafResult(surface: seq<seq<C>>, timeShift: int, freqShift: real,
                                 maxMag: real, medianMag: real)

  // ---------------------------------------------------------------- shift grids and roll

  /** `np.arange(-m, m + 1)`. */
  function TimeShifts(m: int): (r: seq<int>)
    ensures |r| == Max(2 * m + 1, 0)
  {
    if m < 0 then [] else seq(2 * m + 1, i => i - m)
  }

  /** The grid is -m, ..., m: entry i is i - m, so every entry lies in [-m, m]. */
  lemma TimeShiftsRange(m: int, i: int)
    requires 0 <= i < |TimeShifts(m)|
    ensures TimeShifts(m)[i] == i - m && -m <= TimeShifts(m)[i] <= m
  {
  }

  /** `np.roll(s, t)`: element k comes from position (k - t) mod |s|. */
  function Roll<T>(s: seq<T>, t: int): (r: seq<T>)
    ensures |r| == |s|
  {
    seq(|s|, k requires 0 <= k < |s| => s[(k - t) % |s|])
  }

  /** Rolling by a multiple of the length changes nothing. */
  lemma RollIdentity<T>(s: seq<T>, t: int)
    requires |s| > 0 && t % |s| == 0
    ensures Roll(s, t) == s
  {
    var n := |s|;
    forall k | 0 <= k < n
      ensures Roll(s, t)[k] == s[k]
    {
      SubMultipleMod(k, t, n);
    }
  }

  /** Two rolls compose into one by the sum of the shifts. */
  lemma RollRoll<T>(s: seq<T>, a: int, b: int)
    ensures Roll(Roll(s, a), b) == Roll(s, a + b)
  {
    forall k | 0 <= k < |s|
      ensures Roll(Roll(s, a), b)[k] == Roll(s, a + b)[k]
    {
      RollRollAt(s, a, b, k);
    }
  }

  /** Element k of two rolls is element (k - b - a) mod |s| of the original. */
  lemma RollRollAt<T>(s: seq<T>, a: int, b: int, k: int)
    requires 0 <= k < |s|
    ensures Roll(Roll(s, a), b)[k] == Roll(s, a + b)[k]
  {
    var n := |s|;
    var once := Roll(s, a);
    var i := (k - b) % n;
    assert Roll(once, b)[k] == once[i];
    assert once[i] == s[(i - a) % n];
    ModSub(k - b, a, n, k - (a + b));
    assert Roll(s, a + b)[k] == s[(k - (a + b)) % n];
  }

  /** `np.linspace(lo, hi, n)`: n evenly spaced values from lo to hi. */
  function Linspace(lo: real, hi: real, n: nat): (r: seq<real>)
    ensures |r| == n
    ensures n >= 1 ==> r[0] == lo
    ensures n >= 2 ==> r[n - 1] == hi
    ensures n >= 2 ==> forall j :: 0 <= j < n - 1 ==> r[j + 1] - r[j] == (hi - lo) / (n - 1) as real
  {
    if n == 1 then [lo]
    else
      var step := (hi - lo) / (n - 1) as real;
      seq(n, j => lo + j as real * step)
  }

  /** The direct correlator's frequency grid, `linspace(-F, F, n) / K`: from -F/K to F/K,
      entry j being grid value j scaled down by K. */
  function FreqShifts(maxFreqShift: real, n: nat, len: nat): (r: seq<real>)
    requires len > 0
    ensures |r| == n
    ensures n >= 1 ==> r[0] == -maxFreqShift / len as real
    ensures n >= 2 ==> r[n - 1] == maxFreqShift / len as real
    ensures forall j :: 0 <= j < n ==> r[j] * len as real == Linspace(-maxFreqShift, maxFreqShift, n)[j]
  {
    var grid := Linspace(-maxFreqShift, maxFreqShift, n);
    seq(n, j requires 0 <= j < n => grid[j] / len as real)
  }

  // ---------------------------------------------------------------- surfaces

  /** One cell of the direct surface: sum over k of sig1[k] * conj(roll(sig2, t))[k] * exp(-2 pi i f k). */
  function NaiveCell(sig1: seq<C>, sig2: seq<C>, t: int, f: real, cis: real -> C): C
    requires |sig1| == |sig2|
  {
    var shifted := ConjAll(Roll(sig2, t));
    Sum(seq(|sig1|, k requires 0 <= k < |sig1| => Mul(Mul(sig1[k], shifted[k]), cis(-f * k as real))))
  }

  /** Rows are frequency hypotheses, columns time hypotheses. */
  function NaiveSurface(sig1: seq<C>, sig2: seq<C>, times: seq<int>, freqs: seq<real>,
                        cis: real -> C): (r: seq<seq<C>>)
    requires |sig1| == |sig2|
    ensures IsMatrix(r, |freqs|, |times|)
  {
    seq(|freqs|, j requires 0 <= j < |freqs| =>
      seq(|times|, i requires 0 <= i < |times| => NaiveCell(sig1, sig2, times[i], freqs[j], cis)))
  }

  /** One column of the transform surface: fft(sig1 * conj(roll(sig2, -t))). */
  function FftColumn(sig1: seq<C>, sig2: seq<C>, t: int, fft: seq<C> -> seq<C>): seq<C>
    requires |sig1| == |sig2|
  {
    fft(Times(sig1, ConjAll(Roll(sig2, -t))))
  }

  /** Rows are frequency bins (one per sample), columns time hypotheses. */
  function FftSurface(sig1: seq<C>, sig2: seq<C>, times: seq<int>, fft: seq<C> -> seq<C>): (r: seq<seq<C>>)
    requires |sig1| == |sig2| && PreservesLength(fft)
    ensures IsMatrix(r, |sig1|, |times|)
  {
    seq(|sig1|, j requires 0 <= j < |sig1| =>
      seq(|times|, i requires 0 <= i < |times| => FftColumn(sig1, sig2, times[i], fft)[j]))
  }

  /** One row of the spectral surface: ifft(F1 * roll(conj(F2), -2 * shift)). */
  function SpectralRow(spec1: seq<C>, spec2Conj: seq<C>, shift: int, ifft: seq<C> -> seq<C>): (r: seq<C>)
    requires |spec1| == |spec2Conj| && PreservesLength(ifft)
    ensures |r| == |spec1|
  {
    ifft(Times(spec1, Roll(spec2Conj, -2 * shift)))
  }

  /** Rows are frequency hypotheses ind, rolled by ind - num / 2, over two given spectra. */
  function SpectralSurface(spec1: seq<C>, spec2Conj: seq<C>, num: nat, ifft: seq<C> -> seq<C>): (r: seq<seq<C>>)
    requires |spec1| == |spec2Conj| && PreservesLength(ifft)
    ensures IsMatrix(r, num, |spec1|)
  {
    var r := seq(num, ind requires 0 <= ind < num => SpectralRow(spec1, spec2Conj, ind - num / 2, ifft));
    assert forall j :: 0 <= j < num ==> r[j] == SpectralRow(spec1, spec2Conj, j - num / 2, ifft);
    r
  }

  /** Rows are frequency hypotheses, columns are lags: the spectral surface of the two
      signals' transforms, the second one conjugated. */
  function ConvolutionSurface(sig1: seq<C>, sig2: seq<C>, num: nat, fft: seq<C> -> seq<C>,
                              ifft: seq<C> -> seq<C>): (r: seq<seq<C>>)
    requires |sig1| == |sig2| && PreservesLength(fft) && PreservesLength(ifft)
    ensures IsMatrix(r, num, |sig1|)
  {
    SpectralSurface(fft(sig1), ConjAll(fft(sig2)), num, ifft)
  }

  /** `np.abs` of every cell. */
  function Magnitudes(m: seq<seq<C>>, mag: C -> real): (r: seq<seq<real>>)
    ensures |r| == |m| && forall j :: 0 <= j < |m| ==> |r[j]| == |m[j]|
    ensures forall j, i :: 0 <= j < |m| && 0 <= i < |m[j]| ==> r[j][i] == mag(m[j][i])
  {
    seq(|m|, j requires 0 <= j < |m| => seq(|m[j]|, i requires 0 <= i < |m[j]| => mag(m[j][i])))
  }

  // ---------------------------------------------------------------- peak and median

  /** Row-major flattening, as numpy's argmax and median see a 2-D array. */
  function Flatten(m: seq<seq<real>>): seq<real>
  {
    if |m| == 0 then [] else m[0] + Flatten(m[1..])
  }

  lemma {:induction false} FlattenAt(m: seq<seq<real>>, rows: nat, cols: nat, j: nat, i: nat)
    requires IsMatrix(m, rows, cols) && j < rows && i < cols
    ensures |Flatten(m)| == rows * cols
    ensures j * cols + i < rows * cols && Flatten(m)[j * cols + i] == m[j][i]
  {
    FlattenLength(m, rows, cols);
    RowOffset(j, i, rows, cols);
    assert Flatten(m) == m[0] + Flatten(m[1..]);
    if j > 0 {
      FlattenAt(m[1..], rows - 1, cols, j - 1, i);
    }
  }

  lemma {:induction false} FlattenLength(m: seq<seq<real>>, rows: nat, cols: nat)
    requires IsMatrix(m, rows, cols)
    ensures |Flatten(m)| == rows * cols
  {
    if rows > 0 {
      FlattenLength(m[1..], rows - 1, cols);
      assert rows * cols == cols + (rows - 1) * cols;
    }
  }

  /** `np.argmax`: the first index holding the largest value. */
  function ArgMax(s: seq<real>): (k: nat)
    requires |s| > 0
    ensures k < |s|
    ensures forall j :: 0 <= j < |s| ==> s[j] <= s[k]
    ensures forall j :: 0 <= j < k ==> s[j] < s[k]
  {
    if |s| == 1 then 0
    else
      var k := ArgMax(s[..|s| - 1]);
      if s[|s| - 1] > s[k] then |s| - 1 else k
  }

  /** `np.unravel_index(np.argmax(m), m.shape)`: the first cell, in row-major order, of
      largest magnitude. */
  function Peak(m: seq<seq<real>>, rows: nat, cols: nat): (p: Index2)
    requires IsMatrix(m, rows, cols) && rows > 0 && cols > 0
    ensures p.row < rows && p.col < cols
    ensures forall j, i :: 0 <= j < rows && 0 <= i < cols ==> m[j][i] <= m[p.row][p.col]
    ensures forall j, i :: 0 <= j < rows && 0 <= i < cols && (j < p.row || (j == p.row && i < p.col))
                           ==> m[j][i] < m[p.row][p.col]
  {
    FlattenLength(m, rows, cols);
    var k := ArgMax(Flatten(m));
    DivModSplit(k, cols);
    DivBelow(k, rows, cols);
    PeakIsFirstMaximum(m, rows, cols, k, k / cols, k % cols);
    Index2(k / cols, k % cols)
  }

  lemma PeakIsFirstMaximum(m: seq<seq<real>>, rows: nat, cols: nat, k: nat, row: nat, col: nat)
    requires IsMatrix(m, rows, cols) && row < rows && col < cols && k == row * cols + col
    requires |Flatten(m)| == rows * cols && k < |Flatten(m)|
    requires forall x :: 0 <= x < |Flatten(m)| ==> Flatten(m)[x] <= Flatten(m)[k]
    requires forall x :: 0 <= x < k ==> Flatten(m)[x] < Flatten(m)[k]
    ensures forall j, i :: 0 <= j < rows && 0 <= i < cols ==> m[j][i] <= m[row][col]
    ensures forall j, i :: 0 <= j < rows && 0 <= i < cols && (j < row || (j == row && i < col))
                           ==> m[j][i] < m[row][col]
  {
    FlattenAt(m, rows, cols, row, col);
    assert Flatten(m)[k] == m[row][col];
    forall j, i | 0 <= j < rows && 0 <= i < cols
      ensures m[j][i] <= m[row][col]
      ensures (j < row || (j == row && i < col)) ==> m[j][i] < m[row][col]
    {
      FlattenAt(m, rows, cols, j, i);
      RowMajorBefore(j, i, row, col, cols);
    }
  }

  /** Flat index x holds the cell (x div cols, x mod cols). */
  lemma FlattenCell(m: seq<seq<real>>, rows: nat, cols: nat, x: nat)
    requires IsMatrix(m, rows, cols) && cols > 0 && x < rows * cols
    ensures |Flatten(m)| == rows * cols
    ensures x / cols < rows && Flatten(m)[x] == m[x / cols][x % cols]
  {
    var j, i := x / cols, x % cols;
    DivModSplit(x, cols);
    DivBelow(x, rows, cols);
    FlattenAt(m, rows, cols, j, i);
  }

  /** Row-major order: a cell in an earlier row, or earlier in the same row, has the
      smaller flat index. */
  lemma RowMajorBefore(j: nat, i: nat, row: nat, col: nat, cols: nat)
    requires i < cols
    ensures (j < row || (j == row && i < col)) ==> j * cols + i < row * cols + col
  {
    if j < row {
      var d := row - j - 1;
      assert row * cols == j * cols + cols + d * cols;
      assert d * cols >= 0;
    }
  }

  /** Cell (j, i) of a rows-by-cols matrix flattens below rows * cols, one row after
      cell (j - 1, i). */
  lemma RowOffset(j: nat, i: nat, rows: nat, cols: nat)
    requires j < rows && i < cols
    ensures j * cols + i < rows * cols
    ensures j > 0 ==> j * cols + i == cols + ((j - 1) * cols + i)
  {
    BlockBelow(j, i, rows, cols);
  }

  /** Insertion into a sorted sequence. */
  function Insert(x: real, s: seq<real>): (r: seq<real>)
    requires Sorted(s)
    ensures |r| == |s| + 1 && multiset(r) == multiset(s) + multiset{x} && Sorted(r)
    ensures r[0] == x || (|s| > 0 && r[0] == s[0])
  {
    if |s| == 0 || x <= s[0] then
      SortedCons(x, s);
      [x] + s
    else
      assert s == [s[0]] + s[1..];
      var t := Insert(x, s[1..]);
      SortedCons(s[0], t);
      [s[0]] + t
  }

  /** A value no larger than the head of a sorted sequence can go in front of it. */
  lemma SortedCons(x: real, s: seq<real>)
    requires Sorted(s) && (|s| > 0 ==> x <= s[0])
    ensures Sorted([x] + s)
  {
    forall i, j | 0 <= i < j < |s| + 1
      ensures ([x] + s)[i] <= ([x] + s)[j]
    {
      if i > 0 {
        assert ([x] + s)[i] == s[i - 1];
      }
    }
  }

  predicate Sorted(s: seq<real>)
  {
    forall i, j :: 0 <= i < j < |s| ==> s[i] <= s[j]
  }

  /** An ascending permutation of `s`. */
  function Sort(s: seq<real>): (r: seq<real>)
    ensures |r| == |s| && multiset(r) == multiset(s) && Sorted(r)
  {
    if |s| == 0 then []
    else
      assert s == [s[0]] + s[1..];
      Insert(s[0], Sort(s[1..]))
  }

  /** `np.median`: the middle of the sorted values, or the mean of the two middle ones. */
  function Median(s: seq<real>): real
    requires |s| > 0
  {
    var sorted := Sort(s);
    var n := |s|;
    if n % 2 == 1 then sorted[n / 2] else (sorted[n / 2 - 1] + sorted[n / 2]) / 2.0
  }

  /** The largest value is at least the median. */
  lemma MedianAtMostMax(s: seq<real>, k: nat)
    requires k < |s| && forall j :: 0 <= j < |s| ==> s[j] <= s[k]
    ensures Median(s) <= s[k]
  {
    var sorted := Sort(s);
    forall x | 0 <= x < |sorted|
      ensures sorted[x] <= s[k]
    {
      assert sorted[x] in multiset(sorted);
      assert sorted[x] in s;
    }
  }

  /** The smallest value is at most the median. */
  lemma MedianAtLeastMin(s: seq<real>, k: nat)
    requires k < |s| && forall j :: 0 <= j < |s| ==> s[k] <= s[j]
    ensures s[k] <= Median(s)
  {
    var sorted := Sort(s);
    forall x | 0 <= x < |sorted|
      ensures s[k] <= sorted[x]
    {
      assert sorted[x] in multiset(sorted);
      assert sorted[x] in s;
    }
  }

  // ---------------------------------------------------------------- index decoding

  /** Recentres an FFT bin: ((r + K // 2) % K) - K // 2. */
  function FreqBin(r: nat, len: nat): int
    requires len > 0
  {
    ((r + len / 2) % len) - len / 2
  }

  /** A recentred bin is congruent to the bin, lies in [-(K div 2), K - 1 - K div 2], stays
      put in the lower part of the spectrum and wraps to r - K in the upper part. */
  lemma FreqBinRange(r: nat, len: nat)
    requires r < len
    ensures -(len / 2) <= FreqBin(r, len) <= len - 1 - len / 2
    ensures (FreqBin(r, len) - r) % len == 0
    ensures r < len - len / 2 ==> FreqBin(r, len) == r
    ensures r >= len - len / 2 ==> FreqBin(r, len) == r - len
  {
    if r + len / 2 < len {
      DivModUnique(r + len / 2, len, 0, r + len / 2);
    } else {
      DivModUnique(r + len / 2, len, 1, r + len / 2 - len);
      DivModUnique(-(len as int), len, -1, 0);
    }
  }

  /** The spectral correlator's lag decoding, (K - c) % K - K. */
  function SpectralLag(c: nat, len: nat): int
    requires len > 0
  {
    (len - c) % len - len
  }

  /** Lag column 0 decodes to -K and column c > 0 to -c: never to a non-negative lag. */
  lemma SpectralLagRange(c: nat, len: nat)
    requires c < len
    ensures c == 0 ==> SpectralLag(c, len) == -(len as int)
    ensures c > 0 ==> SpectralLag(c, len) == -(c as int)
    ensures -(len as int) <= SpectralLag(c, len) <= -1
  {
    if c == 0 {
      DivModUnique(len, len, 1, 0);
    } else {
      DivModUnique(len - c, len, 0, len - c);
    }
  }

  /** The frequency the spectral correlator reports for row `row`: -((row - num // 2) / K * 2). */
  function SpectralFrequency(row: nat, num: nat, len: nat): real
    requires len > 0
  {
    -((row - num / 2) as real / len as real * 2.0)
  }

  /** Row `row` rolls the conjugate spectrum by -2 (row - num div 2) bins; the reported
      frequency is that roll in cycles per sample, and the middle row reports zero. */
  lemma SpectralFrequencyIsRoll(row: nat, num: nat, len: nat)
    requires len > 0
    ensures SpectralFrequency(row, num, len) == (-2 * (row - num / 2)) as real / len as real
    ensures row == num / 2 ==> SpectralFrequency(row, num, len) == 0.0
  {
  }

  // ---------------------------------------------------------------- the correlators

  /** The array `caf_out` as a sequence of rows. */
  function Rows(a: array2<C>): (r: seq<seq<C>>)
    reads a
    ensures IsMatrix(r, a.Length0, a.Length1)
    ensures forall j, i :: 0 <= j < a.Length0 && 0 <= i < a.Length1 ==> r[j][i] == a[j, i]
  {
    seq(a.Length0, j requires 0 <= j < a.Length0 reads a =>
      seq(a.Length1, i requires 0 <= i < a.Length1 reads a => a[j, i]))
  }

  /** Matrices of the same shape that agree cell by cell are equal. */
  lemma MatrixEqual(a: seq<seq<C>>, b: seq<seq<C>>, rows: nat, cols: nat)
    requires IsMatrix(a, rows, cols) && IsMatrix(b, rows, cols)
    requires forall j, i :: 0 <= j < rows && 0 <= i < cols ==> a[j][i] == b[j][i]
    ensures a == b
  {
    forall j | 0 <= j < rows
      ensures a[j] == b[j]
    {
      assert forall i :: 0 <= i < cols ==> a[j][i] == b[j][i];
    }
  }

  /** The readings every correlator takes from its surface. */
  datatype Summary = Summary(peak: Index2, maxMag: real, medianMag: real)

  /** The first cell of largest magnitude, that magnitude, and the median magnitude. */
  function Summarize(surface: seq<seq<C>>, rows: nat, cols: nat, mag: C -> real): (s: Summary)
    requires IsMatrix(surface, rows, cols) && rows > 0 && cols > 0
    ensures s.peak.row < rows && s.peak.col < cols
    ensures s.maxMag == mag(surface[s.peak.row][s.peak.col])
    ensures forall j, i :: 0 <= j < rows && 0 <= i < cols ==> mag(surface[j][i]) <= s.maxMag
    ensures forall j, i :: 0 <= j < rows && 0 <= i < cols && (j < s.peak.row || (j == s.peak.row && i < s.peak.col))
                           ==> mag(surface[j][i]) < s.maxMag
    ensures s.medianMag <= s.maxMag
  {
    var mags := Magnitudes(surface, mag);
    var p := Peak(mags, rows, cols);
    PeakInFlatten(mags, rows, cols, p);
    Summary(p, mags[p.row][p.col], Median(Flatten(mags)))
  }

  /** Cell (row, col) is the first cell, in row-major order, of largest magnitude: what
      `np.unravel_index(np.argmax(np.abs(caf_out)), caf_out.shape)` picks. */
  predicate FirstPeak(surface: seq<seq<C>>, mag: C -> real, row: nat, col: nat)
  {
    row < |surface| && col < |surface[row]| &&
    (forall j, i :: 0 <= j < |surface| && 0 <= i < |surface[j]| ==> mag(surface[j][i]) <= mag(surface[row][col])) &&
    (forall j, i :: 0 <= j < |surface| && 0 <= i < |surface[j]| && (j < row || (j == row && i < col))
                    ==> mag(surface[j][i]) < mag(surface[row][col]))
  }

  /** A surface has at most one first peak, so the readings taken at it are determined. */
  lemma FirstPeakUnique(surface: seq<seq<C>>, mag: C -> real, r1: nat, c1: nat, r2: nat, c2: nat)
    requires FirstPeak(surface, mag, r1, c1) && FirstPeak(surface, mag, r2, c2)
    ensures r1 == r2 && c1 == c2
  {
    var m1, m2 := mag(surface[r1][c1]), mag(surface[r2][c2]);
    assert m1 <= m2 && m2 <= m1;
  }

  /** Summarize's peak is the first peak. */
  lemma SummaryAtFirstPeak(surface: seq<seq<C>>, rows: nat, cols: nat, mag: C -> real)
    requires IsMatrix(surface, rows, cols) && rows > 0 && cols > 0
    ensures FirstPeak(surface, mag, Summarize(surface, rows, cols, mag).peak.row,
                      Summarize(surface, rows, cols, mag).peak.col)
  {
  }

  /** The peak cell bounds every entry of the flattened surface, so it bounds the median too. */
  lemma PeakInFlatten(m: seq<seq<real>>, rows: nat, cols: nat, p: Index2)
    requires IsMatrix(m, rows, cols) && p.row < rows && p.col < cols
    requires forall j, i :: 0 <= j < rows && 0 <= i < cols ==> m[j][i] <= m[p.row][p.col]
    ensures |Flatten(m)| == rows * cols
    ensures Median(Flatten(m)) <= m[p.row][p.col]
  {
    FlattenAt(m, rows, cols, p.row, p.col);
    var k := p.row * cols + p.col;
    forall x | 0 <= x < |Flatten(m)|
      ensures Flatten(m)[x] <= Flatten(m)[k]
    {
      FlattenCell(m, rows, cols, x);
    }
    MedianAtMostMax(Flatten(m), k);
  }

  /** `naive_caf`, as a value. */
  function NaiveCafSpec(sig1: seq<C>, sig2: seq<C>, maxTimeShift: int, maxFreqShift: real,
                        numFreqs: int, cis: real -> C, mag: C -> real): (r: Result<NaiveResult>)
    ensures r.Ok? <==> |sig1| == |sig2| && |sig1| > 0 && maxTimeShift >= 0 && numFreqs > 0
    ensures |sig1| != |sig2| ==> r == Err(AssertionFailed)
    ensures r.Ok? ==> IsMatrix(r.value.surface, numFreqs, 2 * maxTimeShift + 1)
    ensures r.Ok? ==> -maxTimeShift <= r.value.timeShift <= maxTimeShift
  {
    if |sig1| != |sig2| then Err(AssertionFailed)
    else if numFreqs < 0 then Err(NegativeDimension)
    else if numFreqs == 0 || maxTimeShift < 0 then Err(EmptyArgument)
    else if |sig1| == 0 then Err(NonFinite)
    else
      var times := TimeShifts(maxTimeShift);
      var freqs := FreqShifts(maxFreqShift, numFreqs, |sig1|);
      var surface := NaiveSurface(sig1, sig2, times, freqs, cis);
      var p := Summarize(surface, numFreqs, |times|, mag).peak;
      TimeShiftsRange(maxTimeShift, p.col);
      Ok(NaiveResult(surface, times[p.col], freqs[p.row]))
  }

  /** The loops of `naive_caf`: time shifts outermost, frequencies inside, one cell at a time. */
  method FillNaiveSurface(sig1: seq<C>, sig2: seq<C>, times: seq<int>, freqs: seq<real>,
                          cis: real -> C) returns (surface: seq<seq<C>>)
    requires |sig1| == |sig2|
    ensures surface == NaiveSurface(sig1, sig2, times, freqs, cis)
  {
    ghost var spec := NaiveSurface(sig1, sig2, times, freqs, cis);
    var cafOut := new C[|freqs|, |times|]((j, i) => Zero);
    for i := 0 to |times|
      invariant forall j, i' :: 0 <= j < |freqs| && 0 <= i' < i ==> cafOut[j, i'] == spec[j][i']
    {
      for j := 0 to |freqs|
        invariant forall j', i' :: 0 <= j' < |freqs| && 0 <= i' < i ==> cafOut[j', i'] == spec[j'][i']
        invariant forall j' :: 0 <= j' < j ==> cafOut[j', i] == spec[j'][i]
      {
        cafOut[j, i] := NaiveCell(sig1, sig2, times[i], freqs[j], cis);
      }
    }
    surface := Rows(cafOut);
    MatrixEqual(surface, spec, |freqs|, |times|);
  }

  /** `naive_caf`: fills the surface, then reads off the shifts at the first peak. */
  method NaiveCaf(sig1: seq<C>, sig2: seq<C>, maxTimeShift: int, maxFreqShift: real,
                  numFreqs: int, cis: real -> C, mag: C -> real) returns (r: Result<NaiveResult>)
    ensures r == NaiveCafSpec(sig1, sig2, maxTimeShift, maxFreqShift, numFreqs, cis, mag)
  {
    if |sig1| != |sig2| {
      return Err(AssertionFailed);
    } else if numFreqs < 0 {
      return Err(NegativeDimension);
    } else if numFreqs == 0 || maxTimeShift < 0 {
      return Err(EmptyArgument);
    } else if |sig1| == 0 {
      return Err(NonFinite);
    }
    var times := TimeShifts(maxTimeShift);
    var freqs := FreqShifts(maxFreqShift, numFreqs, |sig1|);
    var surface := FillNaiveSurface(sig1, sig2, times, freqs, cis);
    var p := Summarize(surface, numFreqs, |times|, mag).peak;
    r := Ok(NaiveResult(surface, times[p.col], freqs[p.row]));
  }

  /** The direct correlator's shifts decode the first cell of largest magnitude: such a
      cell exists, and for it the time shift is its column's shift and the frequency shift its
      row's grid value. */
  lemma NaiveCafReadsFirstPeak(sig1: seq<C>, sig2: seq<C>, maxTimeShift: int, maxFreqShift: real,
                               numFreqs: int, cis: real -> C, mag: C -> real, row: nat, col: nat)
    ensures var r := NaiveCafSpec(sig1, sig2, maxTimeShift, maxFreqShift, numFreqs, cis, mag);
            r.Ok? ==> exists j: nat, i: nat :: FirstPeak(r.value.surface, mag, j, i)
    ensures var r := NaiveCafSpec(sig1, sig2, maxTimeShift, maxFreqShift, numFreqs, cis, mag);
            r.Ok? && FirstPeak(r.value.surface, mag, row, col) ==>
              r.value.timeShift == col - maxTimeShift &&
              r.value.freqShift == FreqShifts(maxFreqShift, numFreqs, |sig1|)[row]
  {
    var r := NaiveCafSpec(sig1, sig2, maxTimeShift, maxFreqShift, numFreqs, cis, mag);
    if r.Ok? {
      var times := TimeShifts(maxTimeShift);
      var surface := r.value.surface;
      var p := Summarize(surface, numFreqs, |times|, mag).peak;
      SummaryAtFirstPeak(surface, numFreqs, |times|, mag);
      TimeShiftsRange(maxTimeShift, p.col);
      if FirstPeak(surface, mag, row, col) {
        FirstPeakUnique(surface, mag, row, col, p.row, p.col);
      }
    }
  }

  /** `f` cycles per sample is a bin between -(K div 2) and K - 1 - K div 2 of a K-point FFT. */
  predicate InBinRange(f: real, len: nat)
  {
    -(len / 2) as real <= f * len as real <= (len - 1 - len / 2) as real
  }

  /** The signed frequency, in cycles per sample, of FFT bin `row`: the recentred bin over
      K, so a whole number of bins between -(K div 2) and K - 1 - K div 2. */
  function BinFrequency(row: nat, len: nat): (f: real)
    requires row < len
    ensures f * len as real == FreqBin(row, len) as real
    ensures InBinRange(f, len)
  {
    FreqBinRange(row, len);
    FreqBin(row, len) as real / len as real
  }

  /** `fft_caf`, as a value. The reported frequency is a whole bin over K. */
  function FftCafSpec(sig1: seq<C>, sig2: seq<C>, maxTimeShift: int, fft: seq<C> -> seq<C>,
                      mag: C -> real): (r: Result<CafResult>)
    requires PreservesLength(fft)
    ensures r.Ok? <==> |sig1| == |sig2| && |sig1| > 0 && maxTimeShift >= 0
    ensures |sig1| != |sig2| ==> r == Err(AssertionFailed)
    ensures r.Ok? ==> IsMatrix(r.value.surface, |sig1|, 2 * maxTimeShift + 1)
    ensures r.Ok? ==> -maxTimeShift <= r.value.timeShift <= maxTimeShift
    ensures r.Ok? ==> InBinRange(r.value.freqShift, |sig1|)
    ensures r.Ok? ==> forall j, i :: 0 <= j < |sig1| && 0 <= i < 2 * maxTimeShift + 1 ==>
                        mag(r.value.surface[j][i]) <= r.value.maxMag
    ensures r.Ok? ==> r.value.medianMag <= r.value.maxMag
  {
    if |sig1| != |sig2| then Err(AssertionFailed)
    else if |sig1| == 0 || maxTimeShift < 0 then Err(EmptyArgument)
    else
      var len := |sig1|;
      var times := TimeShifts(maxTimeShift);
      var surface := FftSurface(sig1, sig2, times, fft);
      var s := Summarize(surface, len, |times|, mag);
      TimeShiftsRange(maxTimeShift, s.peak.col);
      Ok(CafResult(surface, times[s.peak.col], BinFrequency(s.peak.row, len), s.maxMag, s.medianMag))
  }

  /** The loop of `fft_caf`: one transform per time shift fills one column. */
  method FillFftSurface(sig1: seq<C>, sig2: seq<C>, times: seq<int>, fft: seq<C> -> seq<C>)
    returns (surface: seq<seq<C>>)
    requires |sig1| == |sig2| && PreservesLength(fft)
    ensures surface == FftSurface(sig1, sig2, times, fft)
  {
    var len := |sig1|;
    ghost var spec := FftSurface(sig1, sig2, times, fft);
    var cafOut := new C[len, |times|]((j, i) => Zero);
    for i := 0 to |times|
      invariant forall j, i' :: 0 <= j < len && 0 <= i' < i ==> cafOut[j, i'] == spec[j][i']
    {
      var column := FftColumn(sig1, sig2, times[i], fft);
      forall j | 0 <= j < len {
        cafOut[j, i] := column[j];
      }
    }
    surface := Rows(cafOut);
    MatrixEqual(surface, spec, len, |times|);
  }

  /** `fft_caf`: fills the surface column by column; the peak's row is recentred into a
      signed frequency in cycles per sample. */
  method FftCaf(sig1: seq<C>, sig2: seq<C>, maxTimeShift: int, fft: seq<C> -> seq<C>,
                mag: C -> real) returns (r: Result<CafResult>)
    requires PreservesLength(fft)
    ensures r == FftCafSpec(sig1, sig2, maxTimeShift, fft, mag)
  {
    if |sig1| != |sig2| {
      return Err(AssertionFailed);
    } else if |sig1| == 0 || maxTimeShift < 0 {
      return Err(EmptyArgument);
    }
    var len := |sig1|;
    var times := TimeShifts(maxTimeShift);
    var surface := FillFftSurface(sig1, sig2, times, fft);
    var s := Summarize(surface, len, |times|, mag);
    r := Ok(CafResult(surface, times[s.peak.col], BinFrequency(s.peak.row, len), s.maxMag, s.medianMag));
  }

  /** The transform correlator's readings decode the first cell of largest magnitude: such a
      cell exists, and for it max_mag is its magnitude, the time shift its column's shift and
      the frequency shift its row's recentred bin over K. */
  lemma FftCafReadsFirstPeak(sig1: seq<C>, sig2: seq<C>, maxTimeShift: int, fft: seq<C> -> seq<C>,
                             mag: C -> real, row: nat, col: nat)
    requires PreservesLength(fft)
    ensures var r := FftCafSpec(sig1, sig2, maxTimeShift, fft, mag);
            r.Ok? ==> exists j: nat, i: nat :: FirstPeak(r.value.surface, mag, j, i)
    ensures var r := FftCafSpec(sig1, sig2, maxTimeShift, fft, mag);
            r.Ok? && FirstPeak(r.value.surface, mag, row, col) ==>
              r.value.maxMag == mag(r.value.surface[row][col]) &&
              r.value.timeShift == col - maxTimeShift &&
              r.value.freqShift == BinFrequency(row, |sig1|)
  {
    var r := FftCafSpec(sig1, sig2, maxTimeShift, fft, mag);
    if r.Ok? {
      var times := TimeShifts(maxTimeShift);
      var surface := r.value.surface;
      var p := Summarize(surface, |sig1|, |times|, mag).peak;
      SummaryAtFirstPeak(surface, |sig1|, |times|, mag);
      TimeShiftsRange(maxTimeShift, p.col);
      if FirstPeak(surface, mag, row, col) {
        FirstPeakUnique(surface, mag, row, col, p.row, p.col);
      }
    }
  }

  /** `convolution_caf`, as a value. The reported lag is never non-negative. */
  function ConvolutionCafSpec(sig1: seq<C>, sig2: seq<C>, numFreqShifts: int, fft: seq<C> -> seq<C>,
                              ifft: seq<C> -> seq<C>, mag: C -> real): (r: Result<CafResult>)
    requires PreservesLength(fft) && PreservesLength(ifft)
    ensures r.Ok? <==> |sig1| == |sig2| && |sig1| > 0 && numFreqShifts > 0
    ensures |sig1| != |sig2| ==> r == Err(AssertionFailed)
    ensures r.Ok? ==> IsMatrix(r.value.surface, numFreqShifts, |sig1|)
    ensures r.Ok? ==> -|sig1| <= r.value.timeShift <= -1
    ensures r.Ok? ==> forall j, i :: 0 <= j < numFreqShifts && 0 <= i < |sig1| ==>
                        mag(r.value.surface[j][i]) <= r.value.maxMag
    ensures r.Ok? ==> r.value.medianMag <= r.value.maxMag
  {
    if |sig1| != |sig2| then Err(AssertionFailed)
    else if |sig1| == 0 then Err(EmptyArgument)
    else if numFreqShifts < 0 then Err(NegativeDimension)
    else if numFreqShifts == 0 then Err(EmptyArgument)
    else
      var len := |sig1|;
      var surface := ConvolutionSurface(sig1, sig2, numFreqShifts, fft, ifft);
      var s := Summarize(surface, numFreqShifts, len, mag);
      SpectralLagRange(s.peak.col, len);
      Ok(CafResult(surface, SpectralLag(s.peak.col, len), SpectralFrequency(s.peak.row, numFreqShifts, len),
                   s.maxMag, s.medianMag))
  }

  /** The spectral correlator's readings decode the first cell of largest magnitude: such a
      cell exists, and for it max_mag is its magnitude, the lag its column's decoding and the
      frequency its row's. */
  lemma ConvolutionCafReadsFirstPeak(sig1: seq<C>, sig2: seq<C>, numFreqShifts: int, fft: seq<C> -> seq<C>,
                                     ifft: seq<C> -> seq<C>, mag: C -> real, row: nat, col: nat)
    requires PreservesLength(fft) && PreservesLength(ifft)
    ensures var r := ConvolutionCafSpec(sig1, sig2, numFreqShifts, fft, ifft, mag);
            r.Ok? ==> exists j: nat, i: nat :: FirstPeak(r.value.surface, mag, j, i)
    ensures var r := ConvolutionCafSpec(sig1, sig2, numFreqShifts, fft, ifft, mag);
            r.Ok? && FirstPeak(r.value.surface, mag, row, col) ==>
              r.value.maxMag == mag(r.value.surface[row][col]) &&
              r.value.timeShift == SpectralLag(col, |sig1|) &&
              r.value.freqShift == SpectralFrequency(row, numFreqShifts, |sig1|)
  {
    var r := ConvolutionCafSpec(sig1, sig2, numFreqShifts, fft, ifft, mag);
    if r.Ok? {
      var surface := r.value.surface;
      var p := Summarize(surface, numFreqShifts, |sig1|, mag).peak;
      SummaryAtFirstPeak(surface, numFreqShifts, |sig1|, mag);
      if FirstPeak(surface, mag, row, col) {
        FirstPeakUnique(surface, mag, row, col, p.row, p.col);
      }
    }
  }

  /** The loop of `convolution_caf`: one inverse transform per frequency hypothesis fills
      one row. */
  method FillSpectralSurface(spec1: seq<C>, spec2Conj: seq<C>, num: nat, ifft: seq<C> -> seq<C>)
    returns (surface: seq<seq<C>>)
    requires |spec1| == |spec2Conj| && PreservesLength(ifft)
    ensures surface == SpectralSurface(spec1, spec2Conj, num, ifft)
  {
    var len := |spec1|;
    var halfShifts := num / 2;
    ghost var spec := SpectralSurface(spec1, spec2Conj, num, ifft);
    var cafOut := new C[num, len]((j, i) => Zero);
    for ind := 0 to num
      invariant forall j, i :: 0 <= j < ind && 0 <= i < len ==> cafOut[j, i] == spec[j][i]
    {
      var row := SpectralRow(spec1, spec2Conj, ind - halfShifts, ifft);
      forall i | 0 <= i < len {
        cafOut[ind, i] := row[i];
      }
    }
    surface := Rows(cafOut);
    MatrixEqual(surface, spec, num, len);
  }

  /** `convolution_caf`: both spectra once, then the surface row by row; the peak's column
      decodes to a lag and its row to a frequency. */
  method ConvolutionCaf(sig1: seq<C>, sig2: seq<C>, numFreqShifts: int, fft: seq<C> -> seq<C>,
                        ifft: seq<C> -> seq<C>, mag: C -> real) returns (r: Result<CafResult>)
    requires PreservesLength(fft) && PreservesLength(ifft)
    ensures r == ConvolutionCafSpec(sig1, sig2, numFreqShifts, fft, ifft, mag)
  {
    if |sig1| != |sig2| {
      return Err(AssertionFailed);
    } else if |sig1| == 0 {
      return Err(EmptyArgument);
    } else if numFreqShifts < 0 {
      return Err(NegativeDimension);
    } else if numFreqShifts == 0 {
      return Err(EmptyArgument);
    }
    var len := |sig1|;
    var spec1 := fft(sig1);
    var spec2Conj := ConjAll(fft(sig2));
    var surface := FillSpectralSurface(spec1, spec2Conj, numFreqShifts, ifft);
    var s := Summarize(surface, numFreqShifts, len, mag);
    r := Ok(CafResult(surface, SpectralLag(s.peak.col, len), SpectralFrequency(s.peak.row, numFreqShifts, len),
                      s.maxMag, s.medianMag));
  }
}
