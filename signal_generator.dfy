/** The signal model: an emitter's symbol stream and its reception at one receiver
    (sampling, propagation delay, Doppler shift and noise). */
module SignalGenerator {
  import opened Outcome
  import opened Numeric
  import opened Complex
  import opened Vectors

  /** Speed of light in m/s. */
  const SpeedOfLight: real := 299792458.0

  /** The bit string every transmitted message starts with. */
  const Preamble: string := "101000010100000"

  /** The preamble after modulation: '1' gives +1 and '0' gives -1. */
  const PreambleSymbols: seq<int> := [1, -1, 1, -1, -1, -1, -1, 1, -1, 1, -1, -1, -1, -1, -1]

  /** Length of the windowed-sinc fractional-delay kernel. */
  const KernelLength: nat := 100

  /** An emitter: carrier frequency (Hz), position and velocity. */
  datatype Emitter = Emitter(frequency: real, position: Vec, velocity: Vec)

  /** A receiver: sample rate (samples/s), bit duration (s/bit) and position. */
  datatype Receiver = Receiver(sampleRate: real, bitDuration: real, position: Vec)

  /** What `receive` hands back: the noisy signal alone, or with the true delay and Doppler shift. */
  datatype Reception =
    | Plain(signal: seq<C>)
    | WithTruth(signal: seq<C>, delay: real, doppler: real)

  /** The modulation table, a dictionary whose only keys are '0' and '1'. */
  function Modulator(bit: char): Option<int>
  {
    if bit == '0' then Some(-1) else if bit == '1' then Some(1) else None
  }

  /** Every character is a key of the modulation table. */
  predicate IsBitString(bits: string)
  {
    forall k :: 0 <= k < |bits| ==> bits[k] == '0' || bits[k] == '1'
  }

  /** The symbols of a message, as a value: the table applied to the preamble and the bits. */
  function Modulate(bits: string): (r: Result<seq<int>>)
    ensures r.Ok? <==> IsBitString(bits)
    ensures r.Err? ==> r.error == KeyError
    ensures r.Ok? ==> |r.value| == |Preamble| + |bits| && forall k :: 0 <= k < |r.value| ==> r.value[k] in {-1, 1}
  {
    if IsBitString(bits) then
      var full := Preamble + bits;
      Ok(seq(|full|, k requires 0 <= k < |full| => if full[k] == '1' then 1 else -1))
    else Err(KeyError)
  }

  /** A modulated message is the modulated preamble followed by one symbol per bit: +1 for
      '1' and -1 for '0'. */
  lemma ModulateLayout(bits: string)
    requires IsBitString(bits)
    ensures |Modulate(bits).value| == |Preamble| + |bits|
    ensures Modulate(bits).value[..|Preamble|] == PreambleSymbols
    ensures forall k :: 0 <= k < |bits| ==>
              Modulate(bits).value[|Preamble| + k] == (if bits[k] == '1' then 1 else -1)
  {
    var full := Preamble + bits;
    assert forall k :: 0 <= k < |bits| ==> full[|Preamble| + k] == bits[k];
  }

  /** `generate_signal`: prepends the preamble and maps every bit through the modulation
      table, one at a time; a character outside the table ends it with a lookup error. */
  method GenerateSignal(bits: string) returns (r: Result<seq<int>>)
    ensures r == Modulate(bits)
  {
    var full := Preamble + bits;
    assert forall k :: 0 <= k < |Preamble| ==> full[k] == '0' || full[k] == '1';
    var symbols: seq<int> := [];
    for i := 0 to |full|
      invariant |symbols| == i
      invariant forall k :: 0 <= k < i ==> Modulator(full[k]) == Some(symbols[k])
    {
      var m := Modulator(full[i]);
      if m.None? {
        assert bits[i - |Preamble|] == full[i] && !IsBitString(bits);
        return Err(KeyError);
      }
      symbols := symbols + [m.value];
    }
    assert forall k :: 0 <= k < |bits| ==> full[|Preamble| + k] == bits[k];
    assert IsBitString(bits) by {
      forall k | 0 <= k < |bits|
        ensures bits[k] == '0' || bits[k] == '1'
      {
        assert Modulator(full[|Preamble| + k]).Some?;
      }
    }
    assert symbols == Modulate(bits).value;
    r := Ok(symbols);
  }

  /** Samples per symbol, `int(sample_rate * bit_duration)`: truncation, not rounding. */
  function SamplesPerBit(rx: Receiver): int
  {
    TruncateToInt(rx.sampleRate * rx.bitDuration)
  }

  /** Sample `o` of the `spb` samples one symbol expands to. Zero-order hold repeats the
      symbol; pulse position gives `spb / 2` ones then zeros for symbol 1, and zeros then
      ones for any other symbol. */
  function BitSample(sym: int, spb: nat, o: nat, ppm: bool): real
  {
    if !ppm then sym as real
    else if sym == 1 then (if o < spb / 2 then 1.0 else 0.0)
    else (if o < spb / 2 then 0.0 else 1.0)
  }

  /** The sampled signal: sample k is offset k % spb of symbol k / spb. */
  function Expand(symbols: seq<int>, spb: nat, ppm: bool): (r: seq<real>)
    ensures |r| == |symbols| * spb
  {
    seq(|symbols| * spb, k requires 0 <= k < |symbols| * spb =>
      DivBelow(k, |symbols|, spb);
      BitSample(symbols[k / spb], spb, k % spb, ppm))
  }

  /** Every symbol becomes `spb` consecutive samples, in order. */
  lemma ExpandBlock(symbols: seq<int>, spb: nat, ppm: bool, j: nat, o: nat)
    requires j < |symbols| && o < spb
    ensures j * spb + o < |symbols| * spb
    ensures Expand(symbols, spb, ppm)[j * spb + o] == BitSample(symbols[j], spb, o, ppm)
  {
    var k := j * spb + o;
    BlockBelow(j, o, |symbols|, spb);
    DivModUnique(k, spb, j, o);
    assert Expand(symbols, spb, ppm)[k] == BitSample(symbols[k / spb], spb, k % spb, ppm);
  }

  /** Expanding one more symbol appends its block. */
  lemma ExpandSnoc(s: seq<int>, x: int, spb: nat, ppm: bool)
    ensures Expand(s + [x], spb, ppm)
         == Expand(s, spb, ppm) + seq(spb, o requires 0 <= o < spb => BitSample(x, spb, o, ppm))
  {
    var lhs := Expand(s + [x], spb, ppm);
    var rhs := Expand(s, spb, ppm) + seq(spb, o requires 0 <= o < spb => BitSample(x, spb, o, ppm));
    assert |lhs| == |s| * spb + spb;
    forall k | 0 <= k < |lhs|
      ensures lhs[k] == rhs[k]
    {
      if k < |s| * spb {
        DivBelow(k, |s|, spb);
        assert (s + [x])[k / spb] == s[k / spb];
      } else {
        DivModUnique(k, spb, |s|, k - |s| * spb);
      }
    }
  }

  /** `sample_signal`: expands every symbol into `SamplesPerBit(rx)` samples, by zero-order
      hold or, when `ppm` holds, by pulse position. */
  method SampleSignal(symbols: seq<int>, rx: Receiver, ppm: bool) returns (r: Result<seq<real>>)
    ensures r.Err? <==> SamplesPerBit(rx) < 0 && |symbols| > 0
    ensures r.Err? ==> r.error == NegativeDimension
    ensures r.Ok? ==> r.value == Expand(symbols, Max(SamplesPerBit(rx), 0), ppm)
  {
    var spb := SamplesPerBit(rx);
    if spb < 0 && |symbols| > 0 {
      return Err(NegativeDimension);
    }
    var n: nat := Max(spb, 0);
    var signal: seq<real> := [];
    for j := 0 to |symbols|
      invariant signal == Expand(symbols[..j], n, ppm)
    {
      var sym := symbols[j];
      var block: seq<real>;
      if ppm {
        var half := n / 2;
        if sym == 1 {
          block := seq(half, _ => 1.0) + seq(n - half, _ => 0.0);
        } else {
          block := seq(half, _ => 0.0) + seq(n - half, _ => 1.0);
        }
      } else {
        block := seq(n, _ => sym as real);
      }
      assert block == seq(n, o requires 0 <= o < n => BitSample(sym, n, o, ppm));
      assert symbols[..j + 1] == symbols[..j] + [sym];
      ExpandSnoc(symbols[..j], sym, n, ppm);
      signal := signal + block;
    }
    assert symbols[..|symbols|] == symbols;
    r := Ok(signal);
  }

  /** `np.convolve(signal, h, mode='same')` with the 100-tap kernel yields
      max(|signal|, 100) samples. */
  ghost predicate SameModeLength(fractional: (seq<C>, real) -> seq<C>)
  {
    forall s: seq<C>, x: real :: |fractional(s, x)| == Max(|s|, KernelLength)
  }

  /** `np.linalg.norm(emitter.position - receiver.position)`. */
  function Distance(sqrt: real -> real, em: Emitter, rx: Receiver): real
    requires |em.position| == |rx.position|
  {
    Dist(sqrt, em.position, rx.position)
  }

  /** The propagation delay in seconds. */
  function TrueDelay(sqrt: real -> real, em: Emitter, rx: Receiver): real
    requires |em.position| == |rx.position|
  {
    Distance(sqrt, em, rx) / SpeedOfLight
  }

  /** The propagation delay in samples. */
  function DelaySamples(sqrt: real -> real, em: Emitter, rx: Receiver): real
    requires |em.position| == |rx.position|
  {
    TrueDelay(sqrt, em, rx) * rx.sampleRate
  }

  function IntegerDelay(sqrt: real -> real, em: Emitter, rx: Receiver): int
    requires |em.position| == |rx.position|
  {
    TruncateToInt(DelaySamples(sqrt, em, rx))
  }

  function FractionalDelay(sqrt: real -> real, em: Emitter, rx: Receiver): real
    requires |em.position| == |rx.position|
  {
    DelaySamples(sqrt, em, rx) - IntegerDelay(sqrt, em, rx) as real
  }

  /** For a non-negative sample rate the delay splits into a whole number of samples,
      the floor of the delay, and a fraction in [0, 1). */
  lemma DelaySplit(sqrt: real -> real, em: Emitter, rx: Receiver)
    requires IsSqrt(sqrt) && |em.position| == |rx.position| && rx.sampleRate >= 0.0
    ensures IntegerDelay(sqrt, em, rx) >= 0
    ensures IntegerDelay(sqrt, em, rx) == DelaySamples(sqrt, em, rx).Floor
    ensures 0.0 <= FractionalDelay(sqrt, em, rx) < 1.0
  {
    DistNonNegative(sqrt, em.position, rx.position);
    NonNegativeProduct(TrueDelay(sqrt, em, rx), rx.sampleRate);
  }

  lemma NonNegativeProduct(a: real, b: real)
    requires a >= 0.0 && b >= 0.0
    ensures a * b >= 0.0
  {
  }

  /** `add_time_delay`: the fractionally filtered signal behind `IntegerDelay` zeros, cut back
      to the input length, together with the true delay in seconds. `fractional` stands for
      the windowed-sinc convolution. */
  function AddTimeDelay(signal: seq<C>, rx: Receiver, em: Emitter, sqrt: real -> real,
                        fractional: (seq<C>, real) -> seq<C>): (r: Result<(seq<C>, real)>)
    requires SameModeLength(fractional)
    ensures r.Ok? <==> |em.position| == |rx.position| && |signal| > 0 && IntegerDelay(sqrt, em, rx) >= 0
    ensures r.Err? && |em.position| != |rx.position| ==> r.error == ShapeMismatch
    ensures r.Ok? ==> |r.value.0| == |signal|
    ensures r.Ok? ==> r.value.1 * SpeedOfLight == Distance(sqrt, em, rx)
    ensures r.Ok? ==> forall k :: 0 <= k < |signal| && k < IntegerDelay(sqrt, em, rx) ==> r.value.0[k] == Zero
    ensures r.Ok? ==> forall k :: IntegerDelay(sqrt, em, rx) <= k < |signal| ==>
                        r.value.0[k] == fractional(signal, FractionalDelay(sqrt, em, rx))[k - IntegerDelay(sqrt, em, rx)]
  {
    if |em.position| != |rx.position| then Err(ShapeMismatch)
    else if |signal| == 0 then Err(EmptyArgument)
    else
      var n := IntegerDelay(sqrt, em, rx);
      if n < 0 then Err(NegativeDimension)
      else
        var filtered := fractional(signal, FractionalDelay(sqrt, em, rx));
        Ok(((seq(n, _ => Zero) + filtered)[..|signal|], TrueDelay(sqrt, em, rx)))
  }

  /** The geometry the Doppler formula needs: matching dimensions and a receiver that is not
      at the emitter (the distance divides). */
  predicate DopplerDefined(sqrt: real -> real, em: Emitter, rx: Receiver)
  {
    |em.position| == |rx.position| == |em.velocity| && Distance(sqrt, em, rx) != 0.0
  }

  /** f1 = (V . (Xr - Xe) / |Xe - Xr|) / c * f0: the radial velocity toward the receiver
      scaled to a frequency shift. */
  function DopplerShift(sqrt: real -> real, em: Emitter, rx: Receiver): real
    requires DopplerDefined(sqrt, em, rx)
  {
    Dot(em.velocity, Sub(rx.position, em.position)) / Distance(sqrt, em, rx) / SpeedOfLight * em.frequency
  }

  /** A velocity perpendicular to the line of sight, in particular a zero velocity, gives no
      Doppler shift. */
  lemma DopplerVanishes(sqrt: real -> real, em: Emitter, rx: Receiver)
    requires DopplerDefined(sqrt, em, rx)
    requires Dot(em.velocity, Sub(rx.position, em.position)) == 0.0
          || forall i :: 0 <= i < |em.velocity| ==> em.velocity[i] == 0.0
    ensures DopplerShift(sqrt, em, rx) == 0.0
  {
    if forall i :: 0 <= i < |em.velocity| ==> em.velocity[i] == 0.0 {
      DotZeroLeft(em.velocity, Sub(rx.position, em.position));
    }
  }

  /** The phase, in cycles, of sample k under a frequency shift f at the given sample rate. */
  function Phase(f: real, k: nat, sampleRate: real): real
    requires sampleRate != 0.0
  {
    f * k as real / sampleRate
  }

  /** `apply_doppler`: multiplies sample k by exp(2 pi i f1 k / sample_rate), where
      `cis(x)` stands for exp(2 pi i x); also returns f1. */
  function ApplyDoppler(signal: seq<C>, rx: Receiver, em: Emitter, sqrt: real -> real,
                        cis: real -> C): (r: Result<(seq<C>, real)>)
    ensures r.Ok? <==> DopplerDefined(sqrt, em, rx) && (rx.sampleRate != 0.0 || |signal| == 0)
    ensures r.Ok? ==> r.value.1 == DopplerShift(sqrt, em, rx) && |r.value.0| == |signal|
    ensures r.Ok? ==> forall k :: 0 <= k < |signal| ==>
                        r.value.0[k] == Mul(signal[k], cis(Phase(DopplerShift(sqrt, em, rx), k, rx.sampleRate)))
  {
    if !(|em.position| == |rx.position| == |em.velocity|) then Err(ShapeMismatch)
    else if Distance(sqrt, em, rx) == 0.0 then Err(NonFinite)
    else if rx.sampleRate == 0.0 && |signal| > 0 then Err(NonFinite)
    else
      var f1 := DopplerShift(sqrt, em, rx);
      Ok((seq(|signal|, k requires 0 <= k < |signal| => Mul(signal[k], cis(Phase(f1, k, rx.sampleRate)))), f1))
  }

  /** The linear SNR-versus-distance model: 4 at the receiver, 1 at 400 km. */
  function SnrFromDistance(x: real): real
  {
    (1.0 - 4.0) / 400000.0 * x + 4.0
  }

  lemma SnrLine(x: real, y: real)
    ensures SnrFromDistance(0.0) == 4.0 && SnrFromDistance(400000.0) == 1.0
    ensures x < y ==> SnrFromDistance(x) > SnrFromDistance(y)
    ensures SnrFromDistance(x) == 0.0 <==> x == 1600000.0 / 3.0
  {
  }

  function SumAbsSq(s: seq<C>): real
  {
    if |s| == 0 then 0.0 else AbsSq(s[0]) + SumAbsSq(s[1..])
  }

  /** `signal_to_noise_ratio`: the noise variance, mean power over the SNR at that distance. */
  function SignalToNoiseRatio(signal: seq<C>, distance: real): (r: Result<real>)
    ensures r.Ok? <==> |signal| > 0 && SnrFromDistance(distance) != 0.0
    ensures r.Err? ==> r.error == NonFinite
    ensures r.Ok? ==> r.value * SnrFromDistance(distance) == SumAbsSq(signal) / |signal| as real
  {
    if |signal| == 0 || SnrFromDistance(distance) == 0.0 then Err(NonFinite)
    else
      var power := SumAbsSq(signal) / |signal| as real;
      DivTimes(power, SnrFromDistance(distance));
      Ok(power / SnrFromDistance(distance))
  }

  lemma DivTimes(a: real, b: real)
    requires b != 0.0
    ensures (a / b) * b == a
  {
  }

  /** The standard deviation `add_noise` passes to the normal draws: noise_var**2 / 2. */
  function NoiseScale(signal: seq<C>, sqrt: real -> real, em: Emitter, rx: Receiver): real
    requires |em.position| == |rx.position|
    requires SignalToNoiseRatio(signal, Distance(sqrt, em, rx)).Ok?
  {
    var v := SignalToNoiseRatio(signal, Distance(sqrt, em, rx)).value;
    v * v / 2.0
  }

  /** `add_noise`: adds independent draws to the real and imaginary parts. `gaussian(s, n)` is
      the n-th draw of the shared normal stream at scale s and `draw` the index of the first
      draw not yet taken; the real draws come first, then the imaginary ones, so a call takes
      2 * |signal| draws. */
  function AddNoise(signal: seq<C>, rx: Receiver, em: Emitter, sqrt: real -> real,
                    gaussian: (real, nat) -> real, draw: nat): (r: Result<seq<C>>)
    ensures r.Ok? <==> |em.position| == |rx.position|
                       && (|signal| == 0 || SnrFromDistance(Distance(sqrt, em, rx)) != 0.0)
    ensures r.Ok? ==> |r.value| == |signal|
    ensures r.Ok? && |signal| > 0 ==> forall k :: 0 <= k < |signal| ==>
              r.value[k] == Add(signal[k], C(gaussian(NoiseScale(signal, sqrt, em, rx), draw + k),
                                             gaussian(NoiseScale(signal, sqrt, em, rx), draw + |signal| + k)))
  {
    if |em.position| != |rx.position| then Err(ShapeMismatch)
    else if |signal| == 0 then Ok([])
    else if SnrFromDistance(Distance(sqrt, em, rx)) == 0.0 then Err(NonFinite)
    else
      var s := NoiseScale(signal, sqrt, em, rx);
      Ok(seq(|signal|, k requires 0 <= k < |signal| =>
        Add(signal[k], C(gaussian(s, draw + k), gaussian(s, draw + |signal| + k)))))
  }

  /** Delay, then Doppler, then noise, applied to an already sampled signal. */
  function Propagate(signal: seq<C>, rx: Receiver, em: Emitter, returnTrueValues: bool,
                     sqrt: real -> real, fractional: (seq<C>, real) -> seq<C>,
                     cis: real -> C, gaussian: (real, nat) -> real, draw: nat): (r: Result<Reception>)
    requires SameModeLength(fractional)
    ensures r.Ok? <==> |signal| > 0 && DopplerDefined(sqrt, em, rx) && IntegerDelay(sqrt, em, rx) >= 0
                       && rx.sampleRate != 0.0 && SnrFromDistance(Distance(sqrt, em, rx)) != 0.0
    ensures r.Ok? ==> (r.value.WithTruth? <==> returnTrueValues) && |r.value.signal| == |signal|
    ensures r.Ok? && returnTrueValues ==>
              r.value.delay == TrueDelay(sqrt, em, rx) && r.value.doppler == DopplerShift(sqrt, em, rx)
    ensures r.Ok? ==>
              r.value.signal == AddNoise(ApplyDoppler(AddTimeDelay(signal, rx, em, sqrt, fractional).value.0,
                                                      rx, em, sqrt, cis).value.0, rx, em, sqrt, gaussian, draw).value
  {
    var delayed :- AddTimeDelay(signal, rx, em, sqrt, fractional);
    var shifted :- ApplyDoppler(delayed.0, rx, em, sqrt, cis);
    var noisy :- AddNoise(shifted.0, rx, em, sqrt, gaussian, draw);
    if returnTrueValues then Ok(WithTruth(noisy, delayed.1, shifted.1)) else Ok(Plain(noisy))
  }

  /** What `receive` returns, as a value: the zero-order-hold samples propagated. */
  function ReceiveSpec(symbols: seq<int>, rx: Receiver, em: Emitter, returnTrueValues: bool,
                       sqrt: real -> real, fractional: (seq<C>, real) -> seq<C>,
                       cis: real -> C, gaussian: (real, nat) -> real, draw: nat): (r: Result<Reception>)
    requires SameModeLength(fractional)
    ensures r.Ok? ==> |r.value.signal| == |symbols| * SamplesPerBit(rx)
    ensures r.Ok? ==> rx.sampleRate != 0.0 && DopplerDefined(sqrt, em, rx)
    ensures r.Ok? ==> (r.value.WithTruth? <==> returnTrueValues)
    ensures r.Ok? && returnTrueValues ==>
              r.value.delay == TrueDelay(sqrt, em, rx) && r.value.doppler == DopplerShift(sqrt, em, rx)
  {
    if SamplesPerBit(rx) < 0 && |symbols| > 0 then Err(NegativeDimension)
    else Propagate(Lift(Expand(symbols, Max(SamplesPerBit(rx), 0), false)),
                   rx, em, returnTrueValues, sqrt, fractional, cis, gaussian, draw)
  }

  /** `receive`: sample (zero-order hold), delay, Doppler, noise, in that order. */
  method Receive(symbols: seq<int>, rx: Receiver, em: Emitter, returnTrueValues: bool,
                 sqrt: real -> real, fractional: (seq<C>, real) -> seq<C>,
                 cis: real -> C, gaussian: (real, nat) -> real, draw: nat) returns (r: Result<Reception>)
    requires SameModeLength(fractional)
    ensures r == ReceiveSpec(symbols, rx, em, returnTrueValues, sqrt, fractional, cis, gaussian, draw)
  {
    var samples :- SampleSignal(symbols, rx, false);
    r := Propagate(Lift(samples), rx, em, returnTrueValues, sqrt, fractional, cis, gaussian, draw);
  }
}
