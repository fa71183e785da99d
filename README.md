# TDOA/FDOA geolocation engine — a Dafny model

This project models the core of the `doa_utils` geolocation simulator. That core estimates
the position and velocity of a radio emitter from the signals it reaches several receivers
with.

- **Signal model** (`signal_generator.dfy`, module `SignalGenerator`). The emitter prepends a
  fixed preamble to a bit string and maps every bit to a ±1 symbol. A receiver
  - samples the symbols by zero-order hold (or by pulse position);
  - delays them by the propagation time, split into whole samples of zero padding and a
    fractional remainder;
  - applies the Doppler shift of the emitter's radial velocity;
  - adds noise scaled by a linear SNR-versus-distance model.
- **Cross-ambiguity correlators** (`caf.dfy`, module `Caf`). There are three variants:
  - direct;
  - transform-accelerated (one FFT per time shift);
  - spectral-rolled (one inverse FFT per frequency hypothesis).

  Each fills a surface in loops, finds its first row-major peak and decodes the peak's indices
  into a time shift and a frequency shift. The latter two also report the peak and median
  magnitudes.
- **Solver** (`solver.dfy`, module `Solver`). It has:
  - the constant-TDOA and constant-FDOA residuals;
  - the four objectives that stack them against receiver 0, with their receiver-count
    thresholds;
  - `estimate_emitter`, which picks an objective from the measurement lists it gets, starts
    from the receivers' centroid and returns whatever the least-squares optimizer returns.
- **Experiment** (`simulator.dfy`, module `Simulator`). `simulate_doa`:
  - receives the message at every receiver;
  - differences the true delays and Doppler shifts against receiver 0;
  - correlates every other signal against receiver 0;
  - solves once on the measured and once on the true differences;
  - applies its sign conventions to the two estimates.

  The module also proves the identity the experiment rests on: the true, differenced values
  zero every residual of the joint objective at the true position with the velocity negated.
- **TDOA error studies** (`tdoa_3d_err.dfy` and `tdoa_2d_err.dfy`). These cover the
  ground-truth TDOA matrix generators, with their distance loops and nested matrix-filling
  loops. They also cover the hyperboloid and hyperbola residuals and the upper-triangle
  ordering that pairs matrix entries with residual equations.

Shared modules:
- `outcome.dfy`: `Option`, `Result` and the error kinds that stand for Python exceptions.
- `numeric.dfy`: integer facts.
- `complex.dfy`: complex samples.
- `vectors.dfy`: vectors, dot product, and the Euclidean distance over a square-root parameter.

Operations that can raise are total functions returning `Result`. Each Python exception
becomes an `Error` kind:
- a failed `assert` becomes `AssertionFailed`;
- a missing dictionary key becomes `KeyError`;
- a bad tuple unpacking becomes `UnpackMismatch`;
- a numpy negative dimension becomes `NegativeDimension`;
- and so on.

A numpy division by zero produces inf or NaN rather than raising, and has no value among the
reals, so it becomes `NonFinite`.

Each loop of the source is a method whose `ensures` ties its result to a specification
function. Where the source fills an array in place, the method fills a Dafny `array2`. The
properties are proved about those functions.

Transcendental and numerical primitives are function parameters, with only the facts the proofs
need:
- `sqrt` (with `IsSqrt` where non-negativity matters);
- `cis(x) = exp(2πix)`;
- the FFT and inverse FFT (`PreservesLength`);
- `np.abs` (`mag`);
- the fractional-delay convolution (`SameModeLength`);
- the Gaussian draws;
- `least_squares`;
- geopy's ellipsoidal distance (`geodesic`).

Points of the code's behaviour that a reader might not expect, all modelled as the code has them:
- Samples per bit are `int(sample_rate * bit_duration)`, a truncation, not a rounding.
- The noise scale handed to the normal draws is `noise_var**2 / 2`.
- Solver mode selection mixes truthiness tests with a presence test, so an empty FDOA list
  plus a velocity selects the known-velocity objective.
- The returned estimates negate the FFT-path position and velocity and the ground-truth
  velocity, but keep the ground-truth position.
- A non-converged solve returns only the iterate, with no status flag.
- Dimension and receiver-count checks happen inside the objectives. `estimate_emitter` reaches
  them when the optimizer first evaluates the objective at the starting point.

## Model

| member | source | states |
|---|---|---|
| Numeric.TruncateToInt | doa_utils/signal_generator.py:42 | Python `int()` on a float truncates toward zero: the floor for non-negative values, and for negative x the integer in [x, x + 1), never above 0 |
| Vectors.DistSymmetric | doa_utils/signal_generator.py:69 | `norm(p - q) == norm(q - p)` |
| Vectors.DistNonNegative | doa_utils/signal_generator.py:82 | a distance is never negative, given a genuine square root |
| SignalGenerator.Modulate | doa_utils/signal_generator.py:16-29 | succeeds exactly when every character is '0' or '1', failing otherwise with KeyError; a success has 15 + \|bits\| symbols, each +1 or -1 |
| SignalGenerator.ModulateLayout | doa_utils/signal_generator.py:16-29 | a modulated message has 15 + \|bits\| symbols; the first 15 are the preamble `101000010100000` mapped to ±1; symbol 15 + k is +1 for '1' and -1 for '0' |
| SignalGenerator.GenerateSignal | doa_utils/signal_generator.py:20-29 | the symbol loop yields the modulated message when every character is a key of the table, and a KeyError otherwise |
| SignalGenerator.Expand | doa_utils/signal_generator.py:57-60 | the sampled signal has \|symbols\| * spb samples |
| SignalGenerator.ExpandBlock | doa_utils/signal_generator.py:46-60 | sample j*spb + o belongs to symbol j. Zero-order hold repeats the symbol. Pulse position gives spb div 2 ones then zeros for symbol 1, and zeros then ones otherwise |
| SignalGenerator.SampleSignal | doa_utils/signal_generator.py:41-61 | the append loop yields the expansion by `int(rate * duration)` samples per symbol; a negative count with symbols present is a negative-dimension error |
| SignalGenerator.DelaySplit | doa_utils/signal_generator.py:83-87 | the integer delay is floor(delay * rate) >= 0 and the fractional delay lies in [0, 1) |
| SignalGenerator.AddTimeDelay | doa_utils/signal_generator.py:77-100 | output as long as the input; first min(integer delay, length) samples zero, the rest the filtered signal shifted by the integer delay; the returned delay times c is the distance; errors on dimension mismatch, empty signal, negative delay |
| SignalGenerator.DopplerVanishes | doa_utils/signal_generator.py:69-72 | a zero velocity, or one perpendicular to the line of sight, gives f1 = 0 |
| SignalGenerator.ApplyDoppler | doa_utils/signal_generator.py:63-75 | defined exactly off the emitter with matching dimensions; returns f1 = (V.(Xr-Xe)/dist)/c*f0 and multiplies sample k by exp(2 pi i f1 k / rate); length preserved |
| SignalGenerator.SnrLine | doa_utils/signal_generator.py:106 | snr(0) = 4, snr(400000) = 1, strictly decreasing, zero only at 1600000/3 |
| SignalGenerator.SignalToNoiseRatio | doa_utils/signal_generator.py:102-109 | the variance times the SNR is the mean power; empty signal or zero SNR divide by zero |
| SignalGenerator.AddNoise | doa_utils/signal_generator.py:111-119 | defined exactly when the positions have one length and the SNR is non-zero (or the signal is empty); sample k gains stream draws `draw + k` (real) and `draw + \|signal\| + k` (imaginary) at scale noise_var^2/2, `draw` being the first draw not yet taken; length preserved |
| SignalGenerator.Propagate | doa_utils/signal_generator.py:127-133 | delay, then Doppler, then noise drawn from stream index `draw` on; the true delay and Doppler are returned exactly when asked for; defined exactly when each stage is |
| SignalGenerator.ReceiveSpec | doa_utils/signal_generator.py:121-133 | a reception has \|symbols\| * spb samples, needs a non-zero rate and a defined Doppler, and carries the true delay and shift exactly when asked; its noise starts at stream index `draw` |
| SignalGenerator.Receive | doa_utils/signal_generator.py:121-133 | `receive` is sampling followed by propagation, as ReceiveSpec states |
| Caf.TimeShifts | doa_utils/caf.py:8 | `arange(-m, m+1)` has 2m+1 entries (none for m < 0) |
| Caf.TimeShiftsRange | doa_utils/caf.py:32 | entry i of the grid is i - m, within [-m, m] |
| Caf.Roll | doa_utils/caf.py:18 | `np.roll` preserves length |
| Caf.RollIdentity | doa_utils/caf.py:37 | rolling by a multiple of the length is the identity |
| Caf.RollRoll | doa_utils/caf.py:68 | roll(roll(s, a), b) == roll(s, a + b) |
| Caf.Linspace | doa_utils/caf.py:9 | `linspace(lo, hi, n)` yields n values: the first is lo, the last hi (for n >= 2), and consecutive values are (hi - lo)/(n - 1) apart |
| Caf.FreqShifts | doa_utils/caf.py:9 | the direct correlator's grid has num_freqs entries running from -F/K to F/K, entry j times K being linspace(-F, F, num_freqs)[j] |
| Caf.NaiveSurface | doa_utils/caf.py:14-20 | the direct surface is num_freqs by 2m+1 |
| Caf.FftSurface | doa_utils/caf.py:34-39 | the transform surface is K by 2m+1 |
| Caf.SpectralRow | doa_utils/caf.py:68-69 | one spectral row has K entries |
| Caf.SpectralSurface | doa_utils/caf.py:62-70 | the spectral surface is num_freq_shifts by K |
| Caf.ConvolutionSurface | doa_utils/caf.py:57-70 | built from both spectra, the spectral surface is num_freq_shifts by K |
| Caf.FlattenAt | doa_utils/caf.py:41 | row-major flattening puts cell (j, i) at j*cols + i |
| Caf.FlattenLength | doa_utils/caf.py:41 | a rows-by-cols surface flattens to rows*cols values |
| Caf.ArgMax | doa_utils/caf.py:22 | `argmax`: a maximum, and every earlier entry strictly smaller |
| Caf.Peak | doa_utils/caf.py:22 | the unravelled argmax is a largest cell and every cell before it in row-major order is strictly smaller |
| Caf.Sort | doa_utils/caf.py:48 | an ascending permutation of its input |
| Caf.MedianAtLeastMin | doa_utils/caf.py:47-48 | the median is never below the minimum |
| Caf.MedianAtMostMax | doa_utils/caf.py:47-48 | the median never exceeds the maximum |
| Caf.FreqBinRange | doa_utils/caf.py:45 | ((r + K div 2) mod K) - K div 2 is congruent to r mod K and lies in [-(K div 2), K-1-K div 2]; it is r below K - K div 2 and r - K from there on |
| Caf.SpectralLagRange | doa_utils/caf.py:74 | (K - c) mod K - K is -K for column 0 and -c otherwise, so always in [-K, -1] |
| Caf.SpectralFrequencyIsRoll | doa_utils/caf.py:61-82 | the reported frequency of row ind is -2(ind - half)/K, the spectrum roll over K, zero at the middle row |
| Caf.Summarize | doa_utils/caf.py:41-48 | the peak is the first row-major cell of largest magnitude; max_mag is its magnitude and bounds every cell and the median |
| Caf.FirstPeakUnique | doa_utils/caf.py:22 | a surface has at most one first row-major cell of largest magnitude, so the readings taken there are determined |
| Caf.NaiveCafSpec | doa_utils/caf.py:3-26 | unequal lengths fail the assertion; otherwise defined exactly for non-empty signals, m >= 0 and num_freqs > 0, with a num_freqs by 2m+1 surface and time shift in [-m, m]; the readings at the peak are stated by `Caf.NaiveCafReadsFirstPeak` |
| Caf.NaiveCafReadsFirstPeak | doa_utils/caf.py:22-24 | a successful `naive_caf` surface has a first row-major cell of largest magnitude, and at that cell the time shift is its column's shift (col - m) and the frequency shift its row's grid value |
| Caf.FillNaiveSurface | doa_utils/caf.py:14-20 | the nested loops fill the array with the direct surface |
| Caf.NaiveCaf | doa_utils/caf.py:3-26 | `naive_caf` returns what NaiveCafSpec states |
| Caf.BinFrequency | doa_utils/caf.py:45 | K times the reported frequency is the recentred bin, a whole bin within range |
| Caf.FftCafSpec | doa_utils/caf.py:28-50 | unequal lengths fail the assertion; K by 2m+1 surface; time shift in [-m, m]; frequency a recentred bin over K; max_mag bounds every cell and the median; the readings at the peak are stated by `Caf.FftCafReadsFirstPeak` |
| Caf.FftCafReadsFirstPeak | doa_utils/caf.py:41-47 | a successful `fft_caf` surface has a first row-major cell of largest magnitude; at that cell max_mag is its magnitude, the time shift its column's shift (col - m) and the frequency shift its row's recentred bin over K |
| Caf.FillFftSurface | doa_utils/caf.py:34-39 | the column loop fills the array with the transform surface |
| Caf.FftCaf | doa_utils/caf.py:28-50 | `fft_caf` returns what FftCafSpec states |
| Caf.ConvolutionCafSpec | doa_utils/caf.py:52-82 | unequal lengths fail the assertion; num_freq_shifts by K surface; lag in [-K, -1]; max_mag bounds every cell and the median; the readings at the peak are stated by `Caf.ConvolutionCafReadsFirstPeak` |
| Caf.ConvolutionCafReadsFirstPeak | doa_utils/caf.py:72-79 | a successful `convolution_caf` surface has a first row-major cell of largest magnitude; at that cell max_mag is its magnitude, the lag is (K - col) % K - K and the frequency -((row - num div 2)/K * 2) |
| Caf.FillSpectralSurface | doa_utils/caf.py:62-70 | the row loop fills the array with the spectral surface |
| Caf.ConvolutionCaf | doa_utils/caf.py:52-82 | `convolution_caf` returns what ConvolutionCafSpec states |
| Solver.ConstTdoa | doa_utils/solver.py:100-102 | the TDOA residual is zero iff the range difference equals c (t1 - t2) |
| Solver.ConstTdoaAntisymmetric | doa_utils/solver.py:100-102 | swapping (X1, t1) with (X2, t2) negates the TDOA residual |
| Solver.ConstFdoa | doa_utils/solver.py:76-80 | the FDOA residual is zero iff the difference of the radial velocities equals (c/f0)(f1 - f2) |
| Solver.ConstFdoaAntisymmetric | doa_utils/solver.py:76-80 | swapping (X1, f1) with (X2, f2) negates the FDOA residual |
| Solver.ConstFdoaAtRest | doa_utils/solver.py:76-80 | with V = 0 the FDOA residual is -(c/f0)(f1 - f2) |
| Solver.MinReceiversRule | doa_utils/solver.py:122-155 | in 2-D and 3-D the thresholds are d+1, or 2d+1 when FDOA alone must also find the velocity |
| Solver.TdoaEquations | doa_utils/solver.py:226 | n-1 TDOA residuals |
| Solver.FdoaEquations | doa_utils/solver.py:131 | n-1 FDOA residuals |
| Solver.Tdoa | doa_utils/solver.py:199-226 | too few receivers raise; defined exactly when the count, the equal-length assertion and the shapes allow; entry i-1 pairs receiver 0 with receiver i |
| Solver.FdoaVKnown | doa_utils/solver.py:104-131 | too few receivers raise; defined exactly when counts, lengths, shapes and non-zero distances allow; entry i-1 is the FDOA residual of receivers 0 and i |
| Solver.VelocityPart | doa_utils/solver.py:148-150 | the velocity is the rest of Z, and the two halves concatenate back to Z |
| Solver.FdoaVUnknown | doa_utils/solver.py:133-161 | thresholds 5 and 7; when defined it is the known-velocity objective on Z's two halves |
| Solver.FdoaWithTdoa | doa_utils/solver.py:163-197 | 2(n-1) residuals: the FDOA objective's, then the TDOA objective's, on Z's two halves |
| Solver.SelectMode | doa_utils/solver.py:33-46 | the mode priority, in order: joint when both lists are non-empty; known velocity when FDOA and a velocity are present; TDOA only; FDOA only; otherwise a ValueError |
| Solver.JointFirst | doa_utils/solver.py:33-36 | both lists non-empty select the joint objective whatever the velocity |
| Solver.EmptyFdoaWithVelocity | doa_utils/solver.py:37-38 | an empty FDOA list with a velocity selects the known-velocity objective |
| Solver.EmptyListIsAbsent | doa_utils/solver.py:33-44 | without a velocity an empty list selects as an absent one |
| Solver.SumPositions | doa_utils/solver.py:32 | the coordinate-wise sum keeps the dimension |
| Solver.Centroid | doa_utils/solver.py:32 | the centroid keeps the dimension |
| Solver.SumOfCopies | doa_utils/solver.py:32 | n copies of a point sum to n times it |
| Solver.CentroidOfCopies | doa_utils/solver.py:32 | receivers on one point have it as their centroid |
| Solver.InitialGuess | doa_utils/solver.py:32-43 | the starting point is the centroid, followed by d zeros in the joint and unknown-velocity modes |
| Solver.EstimateEmitter | doa_utils/solver.py:10-53 | no data raises; with no receivers the NaN centroid cannot be extended by zeros in the velocity-solving modes (a shape error) and is a non-finite start otherwise; a result needs non-empty, homogeneous receivers meeting the mode's threshold and list lengths; the result is the optimizer's iterate for the selected problem and centroid start |
| Solver.ConvergenceIgnored | doa_utils/solver.py:48-53 | the success flag never changes the result |
| Simulator.Differenced | doa_utils/simulator.py:47-48 | differencing keeps the length |
| Simulator.DifferencedAt | doa_utils/simulator.py:47-48 | entry i is value i minus value 0; entry 0 is zero |
| Simulator.DifferencedOffset | doa_utils/simulator.py:47-48 | a common offset cancels |
| Simulator.DifferencedIdempotent | doa_utils/simulator.py:47-48 | differencing twice is differencing once |
| Simulator.Receivers | doa_utils/simulator.py:34 | one receiver per position, sharing rate and bit duration |
| Simulator.ReceiveEach | doa_utils/simulator.py:41-45 | one reception per receiver |
| Simulator.SampleCountIsProduct | doa_utils/signal_generator.py:116-117 | the draw count summed per symbol is \|symbols\| times the samples per bit |
| Simulator.ReceptionTakesDraws | doa_utils/signal_generator.py:116-117 | a successful reception takes exactly two draws per sample of its signal, and at least one |
| Simulator.StreamBeforeFront | doa_utils/simulator.py:41-45 | the draws before receiver i are receiver 0's followed by those before receiver i - 1 of the remaining receivers |
| Simulator.DrawRangesDisjoint | doa_utils/simulator.py:41-45 | receiver i's draws end no later than receiver j's begin, for every i < j: no two receptions share a draw |
| Simulator.ReceptionAtFront | doa_utils/simulator.py:41-45 | receiver i's reception is receiver i - 1's in the run that starts at receiver 1 with the stream moved past receiver 0's draws |
| Simulator.ReceiveEachAt | doa_utils/simulator.py:41-45 | succeeds exactly when every receiver's reception does; entry i is receiver i's, its noise starting where the draws of receivers 0..i-1 end |
| Simulator.ReceiveEachCons | doa_utils/simulator.py:41-45 | the first receiver draws from the current index; the rest draw from where it stopped, and their outcome follows |
| Simulator.ReceiveEachStep | doa_utils/simulator.py:41-45 | one loop step: a failing receiver ends the run with its error, a success extends the gathered receptions and moves the stream past its draws |
| Simulator.ReceiveAll | doa_utils/simulator.py:37-45 | the receive loop returns ReceiveEach's outcome |
| Simulator.MeasureEach | doa_utils/simulator.py:55-58 | one reading per other signal |
| Simulator.MeasureEachAt | doa_utils/simulator.py:55-58 | succeeds exactly when every correlation does; entry i is fshift*rate and tshift/rate of signal i against the reference, with a window of 150 |
| Simulator.Measurements | doa_utils/simulator.py:50-58 | one entry per receiver in each list, both starting with 0 |
| Simulator.MeasurementsAt | doa_utils/simulator.py:50-58 | entry i >= 1 of the lists is fft_caf(signals[0], signals[i], 150)'s frequency shift times the rate and time shift over the rate |
| Simulator.MeasureEachStep | doa_utils/simulator.py:55-58 | one loop step: a failed correlation ends the run, a success appends its reading |
| Simulator.MeasureAgainstReference | doa_utils/simulator.py:50-58 | the measurement loop returns Measurements' outcome |
| Simulator.SimulationSolvesJointly | doa_utils/simulator.py:63-64 | non-empty lists passed positionally select the joint objective |
| Simulator.Drop | doa_utils/simulator.py:70 | `v[3:]` is the rest, and the two cuts concatenate back |
| Simulator.Report | doa_utils/simulator.py:69-77 | succeeds exactly when the FFT estimate's two halves match the emitter's position and velocity lengths; the FFT position and velocity negated, concatenated, give back the FFT estimate; the ground-truth position followed by its negated velocity gives back the ground-truth estimate |
| Simulator.SignConventions | doa_utils/simulator.py:69-72 | both solves landing on (X, -V) report FFT position -X and velocity V, ground-truth position X and velocity V |
| Simulator.SimulateSpec | doa_utils/simulator.py:12-87 | fewer than 4 receivers fail the assertion; a result needs a bit-string message, a non-zero rate and emitter vectors of at least three coordinates |
| Simulator.SimulateDoa | doa_utils/simulator.py:12-87 | `simulate_doa` returns what SimulateSpec states |
| Simulator.TdoaTermVanishes | doa_utils/simulator.py:47 | with differenced true delays, const_tdoa vanishes at the true position |
| Simulator.FdoaTermVanishes | doa_utils/simulator.py:48 | with differenced true Dopplers and f0 = 1090e6, const_fdoa vanishes at the true position with velocity -V |
| Simulator.TdoaPartVanishes | doa_utils/simulator.py:47 | the TDOA objective on the differenced true delays is all zeros at the true position |
| Simulator.FdoaPartVanishes | doa_utils/simulator.py:48 | the FDOA objective on the differenced true Dopplers is all zeros at (X, -V) |
| Simulator.TruthZeroesJointObjective | doa_utils/simulator.py:47-48 | the joint objective on the true differences is all 2(n-1) zeros at (X, -V) |
| Simulator.ReceivedTruthZeroesJointObjective | doa_utils/simulator.py:41-48 | the true values the receptions report, differenced, zero the joint objective at (X, -V) |
| Tdoa3dErr.CartesianIsEuclidean | doa_utils/tests/tdoa_3d_err.py:106-108 | on 2- and 3-coordinate points the Cartesian lambdas are the Euclidean norm of the difference |
| Tdoa3dErr.GetDistanceFunc | doa_utils/tests/tdoa_3d_err.py:103-114 | a function only for dim 2 or 3 with 'cartesian' or 'latlon', None otherwise |
| Tdoa3dErr.Measure | doa_utils/tests/tdoa_3d_err.py:106-114 | a point with too few coordinates is an IndexError; the Cartesian metrics are the planar and spatial distances |
| Tdoa3dErr.MinIndex | doa_utils/tests/tdoa_3d_err.py:87 | where `min` finds its value: a smallest entry, every earlier one larger |
| Tdoa3dErr.ArrivalTimes | doa_utils/tests/tdoa_3d_err.py:86-88 | arrival times are >= 0, one is 0, and a difference of two is the distance difference over c |
| Tdoa3dErr.TdoaMatrix | doa_utils/tests/tdoa_3d_err.py:91-99 | n by n, zero diagonal, arrival[j] - arrival[i] above the diagonal, symmetric |
| Tdoa3dErr.TdoaMatrixNotAntisymmetric | doa_utils/tests/tdoa_3d_err.py:97-99 | off the diagonal both triangles share a sign, so the matrix is not antisymmetric where arrivals differ |
| Tdoa3dErr.FillTdoaMatrix | doa_utils/tests/tdoa_3d_err.py:91-99 | the nested loops fill the zero matrix with TdoaMatrix |
| Tdoa3dErr.TrueTdoaSpec | doa_utils/tests/tdoa_3d_err.py:77-101 | a result needs receivers and a distance function, and is n by n |
| Tdoa3dErr.TrueTdoaEntries | doa_utils/tests/tdoa_3d_err.py:77-101 | zero diagonal, symmetric, entry (a, b) above the diagonal (d_b - d_a)/c |
| Tdoa3dErr.GenerateTrueTdoaData | doa_utils/tests/tdoa_3d_err.py:77-101 | the distance loop and the matrix fill return TrueTdoaSpec |
| Tdoa3dErr.TriuPairs | doa_utils/tests/tdoa_3d_err.py:39 | every pair (a, b) of `triu_indices(n, 1)` has a < b < n |
| Tdoa3dErr.PairsFromBounds | doa_utils/tests/tdoa_3d_err.py:39 | rows i onward hold only pairs i <= a < b < n |
| Tdoa3dErr.PairsFromComplete | doa_utils/tests/tdoa_3d_err.py:39 | rows i onward hold every pair i <= a < b < n |
| Tdoa3dErr.PairsFromOrdered | doa_utils/tests/tdoa_3d_err.py:39 | rows i onward come in row-major order |
| Tdoa3dErr.TriuPairsExact | doa_utils/tests/tdoa_3d_err.py:39 | the flattening lists every pair a < b < n, in row-major order |
| Tdoa3dErr.TrueDiffs | doa_utils/tests/tdoa_3d_err.py:39 | one entry per upper-triangle pair, entry k being c times the time difference of pair k of `triu_indices(n, 1)` |
| Tdoa3dErr.TriuPairsOfFour | doa_utils/tests/tdoa_3d_err.py:39-48 | for four receivers the order is (0,1),(0,2),(0,3),(1,2),(1,3),(2,3), the six equations' pairs |
| Tdoa3dErr.Hyperboloid3d | doa_utils/tests/tdoa_3d_err.py:67-75 | s(dist(p, r2) - dist(p, r1) - diff), s = +1 iff diff > 0; zero exactly when the range difference is diff; unpacking a non-3-D receiver fails |
| Tdoa3dErr.Hyperboloid3dSwap | doa_utils/tests/tdoa_3d_err.py:67-75 | for diff != 0, swapping receivers and negating diff changes nothing |
| Tdoa3dErr.Hyperboloid3dSwapAtZero | doa_utils/tests/tdoa_3d_err.py:67-75 | at diff = 0 the swap changes the residual off the bisector |
| Tdoa3dErr.Equations3d | doa_utils/tests/tdoa_3d_err.py:41-49 | six hyperboloid residuals over the upper-triangle pairs; defined exactly when all four receivers are 3-D |
| Tdoa3dErr.NoiselessEquationsVanish3d | doa_utils/tests/tdoa_3d_err.py:35-49 | without noise, the true emitter zeroes all six equations |
| Tdoa2dErr.PlanarDistanceSymmetric | doa_utils/tests/tdoa_2d_err.py:84 | the planar distance does not depend on argument order |
| Tdoa2dErr.True2dTdoaSpec | doa_utils/tests/tdoa_2d_err.py:74-101 | a truthy emitter or any receiver without exactly two coordinates fails the assertion; a result needs a 2-D emitter and receivers, and is n by n |
| Tdoa2dErr.True2dTdoaEntries | doa_utils/tests/tdoa_2d_err.py:87-99 | zero diagonal, symmetric, entry (a, b) above the diagonal (d_b - d_a)/c |
| Tdoa2dErr.GenerateTrue2dTdoaData | doa_utils/tests/tdoa_2d_err.py:74-101 | the assertion loop, the distance loop and the matrix fill return True2dTdoaSpec |
| Tdoa2dErr.Hyperbola | doa_utils/tests/tdoa_2d_err.py:64-72 | s(dist(p, r2) - dist(p, r1) - diff), s = +1 iff diff > 0; zero exactly when the range difference is diff; unpacking a non-2-D receiver fails |
| Tdoa2dErr.HyperbolaSubtractsMagnitude | doa_utils/tests/tdoa_2d_err.py:64-72 | the residual always subtracts \|diff\| from the range difference taken in the swapped order |
| Tdoa2dErr.PairDiffs | doa_utils/tests/tdoa_2d_err.py:35-37 | three differences |
| Tdoa2dErr.PairsOfThree | doa_utils/tests/tdoa_2d_err.py:41-43 | the upper triangle of three receivers is (0,1),(0,2),(1,2) |
| Tdoa2dErr.PairDiffsAreUpperTriangle | doa_utils/tests/tdoa_2d_err.py:35-37 | the hand-picked entries are the row-major upper triangle, as in the 3-D study |
| Tdoa2dErr.Equations2d | doa_utils/tests/tdoa_2d_err.py:39-44 | three hyperbola residuals over pairs (0,1),(0,2),(1,2); defined exactly when all receivers are 2-D |
| Tdoa2dErr.PairVanishes | doa_utils/tests/tdoa_2d_err.py:64-72 | a residual given the true range difference vanishes at the emitter |
| Tdoa2dErr.NoiselessPairDiffs | doa_utils/tests/tdoa_2d_err.py:32-37 | without noise the three differences are the true range differences |
| Tdoa2dErr.NoiselessEquationsVanish2d | doa_utils/tests/tdoa_2d_err.py:32-44 | without noise, the true emitter zeroes all three equations |

## Left out

- Floating point: values are exact reals. numpy's inf and NaN results are the error
  `NonFinite` instead of values that flow on.
- `np.sqrt`, `np.linalg.norm`'s square root, `np.exp`, `np.abs`, the FFT and the inverse FFT
  are function parameters. The model relies only on length preservation, and on the square
  root being one where non-negativity is used.
- The Blackman-windowed sinc kernel and its convolution (signal_generator.py:89-95) are the
  parameter `fractional`. Only its `mode='same'` output length is assumed.
- Random numbers are parameters:
  - the Gaussian noise is the stream `gaussian(scale, index)`: the index-th normal draw at
    that scale. Receptions take consecutive stretches of it in receiver order, starting at
    index 0 (the message comes from Python's `random`, not from numpy's stream);
  - the random message of `simulate_doa` is the `message` argument.
- `least_squares` is the parameter `leastSquares`. The `warnings.warn` on non-convergence is
  not modelled.
- The geodetic branch of `simulate_doa` (pymap3d conversions) is not modelled, since it is a
  foreign call; the model is the `cartesian=True` path. geopy's distance in
  `get_distance_func` is the parameter `geodesic`.
- Not modelled: the prints in `naive_caf` and `simulate_doa`, and all plotting.
  - The diagnostic `fdoa_with_tdoa` call at simulator.py:66 is kept only for the exceptions it
    can raise. Like the source, it passes the TDOA list twice.
  - The error norms at simulator.py:76-77 are computed and discarded; only their shape check
    survives, in `Report`.
- numpy's size-1 broadcasting is not modelled. Any length mismatch is `ShapeMismatch`.
- `Emitter.sample_rate` (twenty samples per cycle) is never read by the core, so it is not
  modelled.
- The driver functions `tdoa_solver_3d` and `tdoa_solver_2d` are not modelled. They consist of:
  - random receivers, emitters and noise;
  - the bounded `least_squares` call;
  - the error averages and plots;
  - the module-level calls that run them.

  What they feed the optimizer is modelled: `TrueDiffs`/`PairDiffs` and
  `Equations3d`/`Equations2d`.
- The `if i == j: continue` guard in both matrix loops is unreachable (j starts at i + 1), so
  the model has no such branch.
- `Simulator.SimulateSpec`: its own contract states only the guards and the preconditions of
  success. The content of the result is stated by the lemmas on its parts, such as
  `MeasurementsAt`, `ReceiveEachAt`, `SignConventions` and `ReceivedTruthZeroesJointObjective`.
- `simulate_doa` reads the sample rate of the last receiver of the receive loop. Every receiver
  shares `sampling_rate`, so the model uses that value.
