/** The end-to-end experiment `simulate_doa`: one emitter, at least four receivers, the signal
    model at every receiver, the transform-accelerated correlator against receiver 0, and two
    joint solves, one on the measured differences and one on the true ones. */
module Simulator {
  import opened Outcome
  import opened Numeric
  import opened Complex
  import opened Vectors
  import opened SignalGenerator
  import Caf
  import Solver

  /** The correlator's time-shift window, in samples, on either side of zero. */
  const MaxTimeShift: int := 150

  /** The four vectors `simulate_doa` returns. */
  datatype Estimates = Estimates(fftPos: Vec, fftVel: Vec, truePos: Vec, trueVel: Vec)

  // ---------------------------------------------------------------- differencing

  /** Every value minus the value at the reference receiver, index 0. */
  function Differenced(values: seq<real>): (r: seq<real>)
    ensures |r| == |values|
  {
    if |values| == 0 then [] else seq(|values|, i requires 0 <= i < |values| => values[i] - values[0])
  }

  /** Entry i is value i minus value 0, so entry 0 is zero. */
  lemma DifferencedAt(values: seq<real>, i: nat)
    requires i < |values|
    ensures Differenced(values)[i] == values[i] - values[0]
    ensures Differenced(values)[0] == 0.0
  {
  }

  /** A common offset, such as the emission time, cancels. */
  lemma DifferencedOffset(values: seq<real>, offset: real)
    ensures Differenced(seq(|values|, i requires 0 <= i < |values| => values[i] + offset)) == Differenced(values)
  {
  }

  /** Differencing an already differenced list changes nothing. */
  lemma DifferencedIdempotent(values: seq<real>)
    ensures Differenced(Differenced(values)) == Differenced(values)
  {
  }

  // ---------------------------------------------------------------- reception at every receiver

  /** One receiver per position, all with the same sample rate and bit duration. */
  function Receivers(sampleRate: real, bitDuration: real, positions: seq<Vec>): (rs: seq<Receiver>)
    ensures |rs| == |positions| && Solver.Positions(rs) == positions
    ensures forall i :: 0 <= i < |rs| ==> rs[i] == Receiver(sampleRate, bitDuration, positions[i])
  {
    seq(|positions|, i requires 0 <= i < |positions| => Receiver(sampleRate, bitDuration, positions[i]))
  }

  /** `receive(..., return_true_values=True)` at every receiver in turn, stopping at the first
      failure. All receivers draw their noise from one normal stream: `draw` is the index of
      the first draw not yet taken, and each reception moves it on past the draws it took
      (`ReceptionTakesDraws`). */
  function ReceiveEach(symbols: seq<int>, receivers: seq<Receiver>, em: Emitter, sqrt: real -> real,
                       fractional: (seq<C>, real) -> seq<C>, cis: real -> C,
                       gaussian: (real, nat) -> real, draw: nat): (r: Result<seq<Reception>>)
    requires SameModeLength(fractional)
    ensures r.Ok? ==> |r.value| == |receivers|
    decreases |receivers|
  {
    if |receivers| == 0 then Ok([])
    else
      var first :- ReceiveSpec(symbols, receivers[0], em, true, sqrt, fractional, cis, gaussian, draw);
      var rest :- ReceiveEach(symbols, receivers[1..], em, sqrt, fractional, cis, gaussian,
                              NextDraw(draw, symbols, receivers[0]));
      Ok([first] + rest)
  }

  /** The index of the first draw left once a reception at `rx` has taken its draws from
      index `draw` on. */
  function NextDraw(draw: nat, symbols: seq<int>, rx: Receiver): nat
  {
    draw + Draws(symbols, rx)
  }

  /** The number of normal draws a reception at `rx` takes: a real and an imaginary draw per
      sample. */
  function Draws(symbols: seq<int>, rx: Receiver): nat
  {
    2 * SampleCount(|symbols|, Max(SamplesPerBit(rx), 0))
  }

  /** The number of samples `count` symbols expand to at n samples each, added up one symbol at
      a time. */
  function SampleCount(count: nat, n: nat): nat
  {
    if count == 0 then 0 else n + SampleCount(count - 1, n)
  }

  lemma {:induction false} SampleCountIsProduct(count: nat, n: nat)
    ensures SampleCount(count, n) == count * n
  {
    if count > 0 {
      SampleCountIsProduct(count - 1, n);
    }
  }

  /** A successful reception's noise takes exactly Draws draws: two per sample it returns. */
  lemma ReceptionTakesDraws(symbols: seq<int>, rx: Receiver, em: Emitter, sqrt: real -> real,
                            fractional: (seq<C>, real) -> seq<C>, cis: real -> C,
                            gaussian: (real, nat) -> real, draw: nat)
    requires SameModeLength(fractional)
    ensures var r := ReceiveSpec(symbols, rx, em, true, sqrt, fractional, cis, gaussian, draw);
            r.Ok? ==> Draws(symbols, rx) == 2 * |r.value.signal| > 0
  {
    SampleCountIsProduct(|symbols|, Max(SamplesPerBit(rx), 0));
  }

  /** The number of normal draws the receptions at receivers 0 .. i-1 take together: the index,
      counted from the first draw of the run, at which receiver i's noise starts. */
  function StreamBefore(symbols: seq<int>, receivers: seq<Receiver>, i: nat): nat
    requires i <= |receivers|
  {
    if i == 0 then 0 else StreamBefore(symbols, receivers, i - 1) + Draws(symbols, receivers[i - 1])
  }

  lemma {:induction false} StreamBeforeFront(symbols: seq<int>, receivers: seq<Receiver>, i: nat)
    requires 1 <= i <= |receivers|
    ensures StreamBefore(symbols, receivers, i)
            == Draws(symbols, receivers[0]) + StreamBefore(symbols, receivers[1..], i - 1)
    decreases i
  {
    if i > 1 {
      StreamBeforeFront(symbols, receivers, i - 1);
      assert receivers[i - 1] == receivers[1..][i - 2];
    }
  }

  /** The draws receiver i takes end at or before the first draw of every later receiver: no
      two receptions share a noise draw. */
  lemma {:induction false} DrawRangesDisjoint(symbols: seq<int>, receivers: seq<Receiver>, i: nat, j: nat)
    requires i < j <= |receivers|
    ensures StreamBefore(symbols, receivers, i) + Draws(symbols, receivers[i])
            <= StreamBefore(symbols, receivers, j)
    decreases j
  {
    if j > i + 1 {
      DrawRangesDisjoint(symbols, receivers, i, j - 1);
    }
  }

  /** What receiver i reports within a run whose first noise draw is `draw`: its noise starts
      StreamBefore(i) draws further on. */
  function ReceptionAt(symbols: seq<int>, receivers: seq<Receiver>, em: Emitter, sqrt: real -> real,
                       fractional: (seq<C>, real) -> seq<C>, cis: real -> C,
                       gaussian: (real, nat) -> real, draw: nat, i: nat): Result<Reception>
    requires i < |receivers| && SameModeLength(fractional)
  {
    ReceiveSpec(symbols, receivers[i], em, true, sqrt, fractional, cis, gaussian,
                draw + StreamBefore(symbols, receivers, i))
  }

  /** Receiver i of a run is receiver i - 1 of the run that starts at receiver 1, after the
      draws of receiver 0. */
  lemma ReceptionAtFront(symbols: seq<int>, receivers: seq<Receiver>, em: Emitter, sqrt: real -> real,
                         fractional: (seq<C>, real) -> seq<C>, cis: real -> C,
                         gaussian: (real, nat) -> real, draw: nat, i: nat)
    requires 1 <= i < |receivers| && SameModeLength(fractional)
    ensures ReceptionAt(symbols, receivers, em, sqrt, fractional, cis, gaussian, draw, i)
            == ReceptionAt(symbols, receivers[1..], em, sqrt, fractional, cis, gaussian,
                           NextDraw(draw, symbols, receivers[0]), i - 1)
  {
    StreamBeforeFront(symbols, receivers, i);
    var here: nat := draw + StreamBefore(symbols, receivers, i);
    var there: nat := NextDraw(draw, symbols, receivers[0]) + StreamBefore(symbols, receivers[1..], i - 1);
    assert here == there;
    assert receivers[i] == receivers[1..][i - 1];
  }

  /** The receptions succeed exactly when every receiver's does, and then entry i is what
      receiver i reports with its own stretch of the noise stream. */
  lemma {:induction false} ReceiveEachAt(symbols: seq<int>, receivers: seq<Receiver>, em: Emitter,
                                         sqrt: real -> real, fractional: (seq<C>, real) -> seq<C>,
                                         cis: real -> C, gaussian: (real, nat) -> real, draw: nat)
    requires SameModeLength(fractional)
    ensures var r := ReceiveEach(symbols, receivers, em, sqrt, fractional, cis, gaussian, draw);
            r.Ok? <==> forall i :: 0 <= i < |receivers| ==>
                         ReceptionAt(symbols, receivers, em, sqrt, fractional, cis, gaussian, draw, i).Ok?
    ensures var r := ReceiveEach(symbols, receivers, em, sqrt, fractional, cis, gaussian, draw);
            r.Ok? ==> forall i :: 0 <= i < |receivers| ==>
              ReceptionAt(symbols, receivers, em, sqrt, fractional, cis, gaussian, draw, i) == Ok(r.value[i])
    decreases |receivers|
  {
    if |receivers| > 0 {
      var r := ReceiveEach(symbols, receivers, em, sqrt, fractional, cis, gaussian, draw);
      var first := ReceiveSpec(symbols, receivers[0], em, true, sqrt, fractional, cis, gaussian, draw);
      assert ReceptionAt(symbols, receivers, em, sqrt, fractional, cis, gaussian, draw, 0) == first;
      if first.Ok? {
        var next := NextDraw(draw, symbols, receivers[0]);
        var rest := ReceiveEach(symbols, receivers[1..], em, sqrt, fractional, cis, gaussian, next);
        assert r == if rest.Err? then Err(rest.error) else Ok([first.value] + rest.value);
        ReceiveEachAt(symbols, receivers[1..], em, sqrt, fractional, cis, gaussian, next);
        forall i | 1 <= i < |receivers|
          ensures ReceptionAt(symbols, receivers, em, sqrt, fractional, cis, gaussian, draw, i)
                  == ReceptionAt(symbols, receivers[1..], em, sqrt, fractional, cis, gaussian, next, i - 1)
        {
          ReceptionAtFront(symbols, receivers, em, sqrt, fractional, cis, gaussian, draw, i);
        }
        if rest.Ok? {
          forall i | 0 <= i < |receivers|
            ensures ReceptionAt(symbols, receivers, em, sqrt, fractional, cis, gaussian, draw, i) == Ok(r.value[i])
          {
            if i > 0 {
              assert r.value[i] == rest.value[i - 1];
            }
          }
        } else {
          var j :| 0 <= j < |receivers[1..]| &&
                   !ReceptionAt(symbols, receivers[1..], em, sqrt, fractional, cis, gaussian, next, j).Ok?;
          assert !ReceptionAt(symbols, receivers, em, sqrt, fractional, cis, gaussian, draw, j + 1).Ok?;
        }
      }
    }
  }

  /** Prepends what has been gathered so far to the outcome of the rest. */
  function AfterPrefix<T>(done: seq<T>, rest: Result<seq<T>>): Result<seq<T>>
  {
    if rest.Err? then rest else Ok(done + rest.value)
  }

  /** Every reception carries the true delay and Doppler shift. */
  predicate AllWithTruth(rs: seq<Reception>)
  {
    forall i :: 0 <= i < |rs| ==> rs[i].WithTruth?
  }

  function Signals(rs: seq<Reception>): (s: seq<seq<C>>)
    ensures |s| == |rs| && forall i :: 0 <= i < |rs| ==> s[i] == rs[i].signal
  {
    seq(|rs|, i requires 0 <= i < |rs| => rs[i].signal)
  }

  function Delays(rs: seq<Reception>): (d: seq<real>)
    requires AllWithTruth(rs)
    ensures |d| == |rs| && forall i :: 0 <= i < |rs| ==> d[i] == rs[i].delay
  {
    seq(|rs|, i requires 0 <= i < |rs| => rs[i].delay)
  }

  function Dopplers(rs: seq<Reception>): (d: seq<real>)
    requires AllWithTruth(rs)
    ensures |d| == |rs| && forall i :: 0 <= i < |rs| ==> d[i] == rs[i].doppler
  {
    seq(|rs|, i requires 0 <= i < |rs| => rs[i].doppler)
  }

  /** ReceiveEach unfolded once: the rest of the receivers draw from where the first one stopped. */
  lemma ReceiveEachCons(symbols: seq<int>, receivers: seq<Receiver>, em: Emitter, sqrt: real -> real,
                        fractional: (seq<C>, real) -> seq<C>, cis: real -> C,
                        gaussian: (real, nat) -> real, draw: nat)
    requires 0 < |receivers| && SameModeLength(fractional)
    ensures var first := ReceiveSpec(symbols, receivers[0], em, true, sqrt, fractional, cis, gaussian, draw);
            var rest := ReceiveEach(symbols, receivers[1..], em, sqrt, fractional, cis, gaussian,
                                    NextDraw(draw, symbols, receivers[0]));
            ReceiveEach(symbols, receivers, em, sqrt, fractional, cis, gaussian, draw)
              == if first.Err? then Err(first.error)
                 else if rest.Err? then Err(rest.error)
                 else Ok([first.value] + rest.value)
  {
  }

  /** One more receiver: a failure is the outcome of the whole run, a success extends the
      receptions gathered so far and moves the stream on past its draws. */
  lemma ReceiveEachStep(symbols: seq<int>, receivers: seq<Receiver>, i: nat, em: Emitter,
                        sqrt: real -> real, fractional: (seq<C>, real) -> seq<C>, cis: real -> C,
                        gaussian: (real, nat) -> real, draw: nat, done: seq<Reception>)
    requires i < |receivers| && SameModeLength(fractional)
    ensures var one := ReceiveSpec(symbols, receivers[i], em, true, sqrt, fractional, cis, gaussian, draw);
            AfterPrefix(done, ReceiveEach(symbols, receivers[i..], em, sqrt, fractional, cis, gaussian, draw))
              == if one.Err? then Err(one.error)
                 else AfterPrefix(done + [one.value], ReceiveEach(symbols, receivers[i + 1..], em, sqrt, fractional,
                                                                  cis, gaussian, NextDraw(draw, symbols, receivers[i])))
  {
    assert receivers[i..][0] == receivers[i] && receivers[i..][1..] == receivers[i + 1..];
    ReceiveEachCons(symbols, receivers[i..], em, sqrt, fractional, cis, gaussian, draw);
    var one := ReceiveSpec(symbols, receivers[i], em, true, sqrt, fractional, cis, gaussian, draw);
    var whole := ReceiveEach(symbols, receivers[i..], em, sqrt, fractional, cis, gaussian, draw);
    if one.Ok? {
      var rest := ReceiveEach(symbols, receivers[i + 1..], em, sqrt, fractional, cis, gaussian,
                              NextDraw(draw, symbols, receivers[i]));
      if rest.Ok? {
        assert done + ([one.value] + rest.value) == (done + [one.value]) + rest.value;
      }
    } else {
      assert whole == Err(one.error);
    }
  }

  /** The loop of `simulate_doa` that collects every receiver's signal and true values. */
  method ReceiveAll(symbols: seq<int>, receivers: seq<Receiver>, em: Emitter, sqrt: real -> real,
                    fractional: (seq<C>, real) -> seq<C>, cis: real -> C,
                    gaussian: (real, nat) -> real, draw: nat) returns (r: Result<seq<Reception>>)
    requires SameModeLength(fractional)
    ensures r == ReceiveEach(symbols, receivers, em, sqrt, fractional, cis, gaussian, draw)
  {
    var received: seq<Reception> := [];
    var next: nat := draw;
    ghost var whole := ReceiveEach(symbols, receivers, em, sqrt, fractional, cis, gaussian, draw);
    assert receivers[0..] == receivers && (whole.Ok? ==> [] + whole.value == whole.value);
    for i := 0 to |receivers|
      invariant whole == AfterPrefix(received, ReceiveEach(symbols, receivers[i..], em, sqrt, fractional, cis, gaussian, next))
    {
      var one := Receive(symbols, receivers[i], em, true, sqrt, fractional, cis, gaussian, next);
      ReceiveEachStep(symbols, receivers, i, em, sqrt, fractional, cis, gaussian, next, received);
      if one.Err? {
        return Err(one.error);
      }
      received, next := received + [one.value], NextDraw(next, symbols, receivers[i]);
    }
    assert receivers[|receivers|..] == [] && received + [] == received;
    r := Ok(received);
  }

  // ---------------------------------------------------------------- measured differences

  /** The correlator's readings of every other signal against the reference, stopping at the
      first failure: the frequency shift scaled to Hz and the time shift scaled to seconds. */
  function MeasureEach(reference: seq<C>, others: seq<seq<C>>, sampleRate: real, fft: seq<C> -> seq<C>,
                       mag: C -> real): (r: Result<seq<(real, real)>>)
    requires sampleRate != 0.0 && Caf.PreservesLength(fft)
    ensures r.Ok? ==> |r.value| == |others|
    decreases |others|
  {
    if |others| == 0 then Ok([])
    else
      var first :- Caf.FftCafSpec(reference, others[0], MaxTimeShift, fft, mag);
      var rest :- MeasureEach(reference, others[1..], sampleRate, fft, mag);
      Ok([Reading(first, sampleRate)] + rest)
  }

  /** The readings succeed exactly when every correlation does, and then entry i is the
      reading of signal i against the reference. */
  lemma MeasureEachAt(reference: seq<C>, others: seq<seq<C>>, sampleRate: real,
                      fft: seq<C> -> seq<C>, mag: C -> real)
    requires sampleRate != 0.0 && Caf.PreservesLength(fft)
    ensures var r := MeasureEach(reference, others, sampleRate, fft, mag);
            r.Ok? <==> forall i :: 0 <= i < |others| ==> Caf.FftCafSpec(reference, others[i], MaxTimeShift, fft, mag).Ok?
    ensures var r := MeasureEach(reference, others, sampleRate, fft, mag);
            r.Ok? ==> forall i :: 0 <= i < |others| ==>
              r.value[i] == Reading(Caf.FftCafSpec(reference, others[i], MaxTimeShift, fft, mag).value, sampleRate)
  {
    MeasureEachOk(reference, others, sampleRate, fft, mag);
    MeasureEachValues(reference, others, sampleRate, fft, mag);
  }

  /** The readings succeed exactly when every correlation does. */
  lemma {:induction false} MeasureEachOk(reference: seq<C>, others: seq<seq<C>>, sampleRate: real,
                                         fft: seq<C> -> seq<C>, mag: C -> real)
    requires sampleRate != 0.0 && Caf.PreservesLength(fft)
    ensures MeasureEach(reference, others, sampleRate, fft, mag).Ok? <==>
            forall i :: 0 <= i < |others| ==> Caf.FftCafSpec(reference, others[i], MaxTimeShift, fft, mag).Ok?
    decreases |others|
  {
    if |others| > 0 {
      var rest := others[1..];
      MeasureEachOk(reference, rest, sampleRate, fft, mag);
      assert forall i :: 0 <= i < |rest| ==> rest[i] == others[i + 1];
    }
  }

  /** A successful run of readings holds, at entry i, the reading of signal i. */
  lemma {:induction false} MeasureEachValues(reference: seq<C>, others: seq<seq<C>>, sampleRate: real,
                                             fft: seq<C> -> seq<C>, mag: C -> real)
    requires sampleRate != 0.0 && Caf.PreservesLength(fft)
    ensures var r := MeasureEach(reference, others, sampleRate, fft, mag);
            r.Ok? ==> forall i :: 0 <= i < |others| ==>
              Caf.FftCafSpec(reference, others[i], MaxTimeShift, fft, mag).Ok? &&
              r.value[i] == Reading(Caf.FftCafSpec(reference, others[i], MaxTimeShift, fft, mag).value, sampleRate)
    decreases |others|
  {
    var whole := MeasureEach(reference, others, sampleRate, fft, mag);
    MeasureEachOk(reference, others, sampleRate, fft, mag);
    if |others| > 0 && whole.Ok? {
      var rest := others[1..];
      MeasureEachValues(reference, rest, sampleRate, fft, mag);
      var first := Caf.FftCafSpec(reference, others[0], MaxTimeShift, fft, mag);
      var tail := MeasureEach(reference, rest, sampleRate, fft, mag);
      assert whole.value == [Reading(first.value, sampleRate)] + tail.value;
      forall i | 1 <= i < |others|
        ensures whole.value[i] == Reading(Caf.FftCafSpec(reference, others[i], MaxTimeShift, fft, mag).value, sampleRate)
      {
        ConsAt(Reading(first.value, sampleRate), tail.value, i);
        TailAt(others, i);
      }
    }
  }

  /** Entry i of a sequence is entry i - 1 of its tail. */
  lemma TailAt<T>(s: seq<T>, i: int)
    requires 1 <= i < |s|
    ensures s[i] == s[1..][i - 1]
  {
  }

  /** Entry i of `[x] + s` is entry i - 1 of s. */
  lemma ConsAt<T>(x: T, s: seq<T>, i: int)
    requires 1 <= i <= |s|
    ensures ([x] + s)[i] == s[i - 1]
  {
  }

  /** One correlator result as an (FDOA in Hz, TDOA in seconds) pair. */
  function Reading(caf: Caf.CafResult, sampleRate: real): (real, real)
    requires sampleRate != 0.0
  {
    (caf.freqShift * sampleRate, caf.timeShift as real / sampleRate)
  }

  /** The measured FDOA and TDOA lists: 0 for the reference, then one reading per other
      signal. */
  function Measurements(signals: seq<seq<C>>, sampleRate: real, fft: seq<C> -> seq<C>,
                        mag: C -> real): (r: Result<(seq<real>, seq<real>)>)
    requires |signals| > 0 && sampleRate != 0.0 && Caf.PreservesLength(fft)
    ensures r.Ok? ==> |r.value.0| == |signals| && |r.value.1| == |signals|
    ensures r.Ok? ==> r.value.0[0] == 0.0 && r.value.1[0] == 0.0
  {
    var m :- MeasureEach(signals[0], signals[1..], sampleRate, fft, mag);
    Ok(WithReference(m))
  }

  /** The FDOA and TDOA lists of a run of readings, each headed by 0 for the reference. */
  function WithReference(m: seq<(real, real)>): (lists: (seq<real>, seq<real>))
    ensures |lists.0| == |lists.1| == |m| + 1 && lists.0[0] == 0.0 && lists.1[0] == 0.0
    ensures forall i :: 0 <= i < |m| ==> (lists.0[i + 1], lists.1[i + 1]) == m[i]
  {
    ([0.0] + seq(|m|, i requires 0 <= i < |m| => m[i].0), [0.0] + seq(|m|, i requires 0 <= i < |m| => m[i].1))
  }

  /** The measurements succeed exactly when every correlation against signal 0 does; entry i
      of the FDOA list is then the correlator's frequency shift of signal i scaled to Hz and
      entry i of the TDOA list its time shift scaled to seconds. */
  lemma MeasurementsAt(signals: seq<seq<C>>, sampleRate: real, fft: seq<C> -> seq<C>, mag: C -> real)
    requires |signals| > 0 && sampleRate != 0.0 && Caf.PreservesLength(fft)
    ensures var r := Measurements(signals, sampleRate, fft, mag);
            r.Ok? <==> forall i :: 1 <= i < |signals| ==> Caf.FftCafSpec(signals[0], signals[i], MaxTimeShift, fft, mag).Ok?
    ensures var r := Measurements(signals, sampleRate, fft, mag);
            r.Ok? ==> forall i :: 1 <= i < |signals| ==>
              (r.value.0[i], r.value.1[i])
                == Reading(Caf.FftCafSpec(signals[0], signals[i], MaxTimeShift, fft, mag).value, sampleRate)
  {
    var others := signals[1..];
    MeasureEachAt(signals[0], others, sampleRate, fft, mag);
    assert forall i :: 1 <= i < |signals| ==> signals[i] == others[i - 1];
    var m := MeasureEach(signals[0], others, sampleRate, fft, mag);
    if m.Ok? {
      var lists := WithReference(m.value);
      forall i | 1 <= i < |signals|
        ensures (lists.0[i], lists.1[i]) == Reading(Caf.FftCafSpec(signals[0], signals[i], MaxTimeShift, fft, mag).value, sampleRate)
      {
        assert (lists.0[(i - 1) + 1], lists.1[(i - 1) + 1]) == m.value[i - 1];
      }
    }
  }

  /** One more correlation: a failure is the outcome of the whole run, a success extends the
      readings gathered so far. */
  lemma MeasureEachStep(reference: seq<C>, signals: seq<seq<C>>, i: nat, sampleRate: real,
                        fft: seq<C> -> seq<C>, mag: C -> real, done: seq<(real, real)>)
    requires i < |signals| && sampleRate != 0.0 && Caf.PreservesLength(fft)
    ensures var c := Caf.FftCafSpec(reference, signals[i], MaxTimeShift, fft, mag);
            AfterPrefix(done, MeasureEach(reference, signals[i..], sampleRate, fft, mag))
              == if c.Err? then Err(c.error)
                 else AfterPrefix(done + [Reading(c.value, sampleRate)], MeasureEach(reference, signals[i + 1..], sampleRate, fft, mag))
  {
    assert signals[i..][0] == signals[i] && signals[i..][1..] == signals[i + 1..];
    var rest := MeasureEach(reference, signals[i + 1..], sampleRate, fft, mag);
    var c := Caf.FftCafSpec(reference, signals[i], MaxTimeShift, fft, mag);
    if c.Ok? && rest.Ok? {
      assert done + ([Reading(c.value, sampleRate)] + rest.value) == (done + [Reading(c.value, sampleRate)]) + rest.value;
    }
  }

  /** The loop of `simulate_doa` that correlates every other signal against signal 0. */
  method MeasureAgainstReference(signals: seq<seq<C>>, sampleRate: real, fft: seq<C> -> seq<C>,
                                 mag: C -> real) returns (r: Result<(seq<real>, seq<real>)>)
    requires |signals| > 0 && sampleRate != 0.0 && Caf.PreservesLength(fft)
    ensures r == Measurements(signals, sampleRate, fft, mag)
  {
    var readings: seq<(real, real)> := [];
    ghost var whole := MeasureEach(signals[0], signals[1..], sampleRate, fft, mag);
    assert whole.Ok? ==> [] + whole.value == whole.value;
    for i := 1 to |signals|
      invariant whole == AfterPrefix(readings, MeasureEach(signals[0], signals[i..], sampleRate, fft, mag))
    {
      var caf := Caf.FftCaf(signals[0], signals[i], MaxTimeShift, fft, mag);
      MeasureEachStep(signals[0], signals, i, sampleRate, fft, mag, readings);
      if caf.Err? {
        return Err(caf.error);
      }
      readings := readings + [Reading(caf.value, sampleRate)];
    }
    assert signals[|signals|..] == [] && readings + [] == readings;
    r := Ok(WithReference(readings));
  }

  /** Lists with one entry per receiver are non-empty, so both solves of the experiment take
      the joint branch. */
  lemma SimulationSolvesJointly(fdoa: seq<real>, tdoa: seq<real>)
    requires |fdoa| > 0 && |tdoa| > 0
    ensures Solver.SelectMode(Some(fdoa), Some(tdoa), None) == Ok(Solver.Joint)
  {
  }

  // ---------------------------------------------------------------- reporting

  /** numpy's `v[:k]`: a cut past the end takes everything. */
  function Take(v: Vec, k: nat): (r: Vec)
    ensures |r| == Min(k, |v|) && r == v[..|r|]
  {
    v[..Min(k, |v|)]
  }

  /** numpy's `v[k:]`: a cut past the end takes nothing. */
  function Drop(v: Vec, k: nat): (r: Vec)
    ensures |r| == |v| - Min(k, |v|) && Take(v, k) + r == v
  {
    v[Min(k, |v|)..]
  }

  /** The returned vectors: the FFT-based position and velocity both negated, the ground-truth
      position kept and its velocity negated. The error norms the source computes and
      discards still fail on a length mismatch. */
  function Report(fftEst: Vec, trueEst: Vec, emitterPosition: Vec, emitterVelocity: Vec): (r: Result<Estimates>)
    ensures r.Ok? <==> Min(3, |fftEst|) == |emitterPosition| && |fftEst| - Min(3, |fftEst|) == |emitterVelocity|
    ensures r.Ok? ==> Neg(r.value.fftPos) + Neg(r.value.fftVel) == fftEst
    ensures r.Ok? ==> r.value.truePos + Neg(r.value.trueVel) == trueEst
  {
    var fftPos := Neg(Take(fftEst, 3));
    var fftVel := Neg(Drop(fftEst, 3));
    if |fftPos| != |emitterPosition| || |fftVel| != |emitterVelocity| then Err(ShapeMismatch)
    else
      NegNeg(Take(fftEst, 3));
      NegNeg(Drop(fftEst, 3));
      NegNeg(Drop(trueEst, 3));
      Ok(Estimates(fftPos, fftVel, Take(trueEst, 3), Neg(Drop(trueEst, 3))))
  }

  lemma NegNeg(v: Vec)
    ensures Neg(Neg(v)) == v
  {
  }

  /** If both solves landed on the state (X, -V), where the joint objective of the true
      differences vanishes, the ground-truth path would report (X, V) but the FFT path
      would report (-X, V): the position sign differs between the two paths. */
  lemma SignConventions(x: Vec, v: Vec)
    requires |x| == 3 && |v| == 3
    ensures Report(x + Neg(v), x + Neg(v), x, v) == Ok(Estimates(Neg(x), v, x, v))
  {
    var z := x + Neg(v);
    assert Take(z, 3) == x && Drop(z, 3) == Neg(v);
    NegNeg(v);
  }

  // ---------------------------------------------------------------- the experiment

  /** `simulate_doa` in Cartesian coordinates, as a value. `message` is the bit string to send
      (the source draws a random one when none is given); the print of the joint objective at
      the true state is kept only for the exceptions it can raise. */
  function SimulateSpec(emitterPosition: Vec, emitterVelocity: Vec, receiverPositions: seq<Vec>,
                        message: string, emitterFreq: real, samplingRate: real, bitDuration: real,
                        sqrt: real -> real, fractional: (seq<C>, real) -> seq<C>, cis: real -> C,
                        gaussian: (real, nat) -> real, fft: seq<C> -> seq<C>, mag: C -> real,
                        leastSquares: Solver.Problem -> Solver.Solution): (r: Result<Estimates>)
    requires SameModeLength(fractional) && Caf.PreservesLength(fft)
    ensures |receiverPositions| < 4 ==> r == Err(AssertionFailed)
    ensures r.Ok? ==> IsBitString(message) && samplingRate != 0.0
    ensures r.Ok? ==> |emitterPosition| >= 3 && |emitterVelocity| >= 3
  {
    if |receiverPositions| < 4 then Err(AssertionFailed)
    else
      var em := Emitter(emitterFreq, emitterPosition, emitterVelocity);
      var receivers := Receivers(samplingRate, bitDuration, receiverPositions);
      var symbols :- Modulate(message);
      var received :- ReceiveEach(symbols, receivers, em, sqrt, fractional, cis, gaussian, 0);
      ReceiveEachAt(symbols, receivers, em, sqrt, fractional, cis, gaussian, 0);
      assert ReceptionAt(symbols, receivers, em, sqrt, fractional, cis, gaussian, 0, 0).Ok?;
      var trueTdoa := Differenced(Delays(received));
      var trueFdoa := Differenced(Dopplers(received));
      var measured :- Measurements(Signals(received), samplingRate, fft, mag);
      var fftEst :- Solver.EstimateEmitter(receivers, Some(measured.0), Some(measured.1), None, sqrt, leastSquares);
      var trueEst :- Solver.EstimateEmitter(receivers, Some(trueFdoa), Some(trueTdoa), None, sqrt, leastSquares);
      if |emitterPosition| < 3 || |emitterVelocity| < 3 then Err(IndexError)
      else
        var z := emitterPosition[..3] + emitterVelocity[..3];
        var shown := Solver.FdoaWithTdoa(sqrt, z, receiverPositions, trueTdoa, trueTdoa);
        if shown.Err? && shown.error != NonFinite then Err(shown.error)
        else Report(fftEst, trueEst, emitterPosition, emitterVelocity)
  }

  /** `simulate_doa`: the receiver-count assertion, the message, reception at every receiver,
      correlation against receiver 0, the two solves and the sign conventions. */
  method SimulateDoa(emitterPosition: Vec, emitterVelocity: Vec, receiverPositions: seq<Vec>,
                     message: string, emitterFreq: real, samplingRate: real, bitDuration: real,
                     sqrt: real -> real, fractional: (seq<C>, real) -> seq<C>, cis: real -> C,
                     gaussian: (real, nat) -> real, fft: seq<C> -> seq<C>, mag: C -> real,
                     leastSquares: Solver.Problem -> Solver.Solution) returns (r: Result<Estimates>)
    requires SameModeLength(fractional) && Caf.PreservesLength(fft)
    ensures r == SimulateSpec(emitterPosition, emitterVelocity, receiverPositions, message, emitterFreq,
                              samplingRate, bitDuration, sqrt, fractional, cis, gaussian, fft, mag, leastSquares)
  {
    if |receiverPositions| < 4 {
      return Err(AssertionFailed);
    }
    var em := Emitter(emitterFreq, emitterPosition, emitterVelocity);
    var receivers := Receivers(samplingRate, bitDuration, receiverPositions);
    var symbols :- GenerateSignal(message);
    var received :- ReceiveAll(symbols, receivers, em, sqrt, fractional, cis, gaussian, 0);
    ReceiveEachAt(symbols, receivers, em, sqrt, fractional, cis, gaussian, 0);
    assert ReceptionAt(symbols, receivers, em, sqrt, fractional, cis, gaussian, 0, 0).Ok?;
    var trueTdoa := Differenced(Delays(received));
    var trueFdoa := Differenced(Dopplers(received));
    var measured :- MeasureAgainstReference(Signals(received), samplingRate, fft, mag);
    var fftEst :- Solver.EstimateEmitter(receivers, Some(measured.0), Some(measured.1), None, sqrt, leastSquares);
    var trueEst :- Solver.EstimateEmitter(receivers, Some(trueFdoa), Some(trueTdoa), None, sqrt, leastSquares);
    if |emitterPosition| < 3 || |emitterVelocity| < 3 {
      return Err(IndexError);
    }
    var z := emitterPosition[..3] + emitterVelocity[..3];
    var shown := Solver.FdoaWithTdoa(sqrt, z, receiverPositions, trueTdoa, trueTdoa);
    if shown.Err? && shown.error != NonFinite {
      return Err(shown.error);
    }
    r := Report(fftEst, trueEst, emitterPosition, emitterVelocity);
  }

  // ---------------------------------------------------------------- the truth solves the equations

  /** For one receiver pair, the true delays, differenced against receiver 0, zero the TDOA
      residual at the true position. */
  lemma TdoaTermVanishes(sqrt: real -> real, em: Emitter, r0: Receiver, ri: Receiver)
    requires |em.position| == |r0.position| == |ri.position|
    ensures Solver.ConstTdoa(sqrt, em.position, r0.position, ri.position, 0.0,
                             TrueDelay(sqrt, em, ri) - TrueDelay(sqrt, em, r0)) == 0.0
  {
  }

  /** For one receiver pair, the true Doppler shifts, differenced against receiver 0, zero the
      FDOA residual at the true position with the velocity negated, when the emitter
      transmits at the solver's nominal frequency. */
  lemma FdoaTermVanishes(sqrt: real -> real, em: Emitter, r0: Receiver, ri: Receiver)
    requires em.frequency == Solver.NominalFrequency
    requires DopplerDefined(sqrt, em, r0) && DopplerDefined(sqrt, em, ri)
    ensures Solver.FdoaDefined(sqrt, em.position, Neg(em.velocity), r0.position, ri.position)
    ensures Solver.ConstFdoa(sqrt, em.position, Neg(em.velocity), r0.position, ri.position, 0.0,
                             DopplerShift(sqrt, em, ri) - DopplerShift(sqrt, em, r0)) == 0.0
  {
    DotNegSwap(em.velocity, em.position, r0.position);
    DotNegSwap(em.velocity, em.position, ri.position);
  }

  /** The true delay at every receiver. */
  function TrueDelays(sqrt: real -> real, em: Emitter, receivers: seq<Receiver>): (d: seq<real>)
    requires forall i :: 0 <= i < |receivers| ==> |receivers[i].position| == |em.position|
    ensures |d| == |receivers| && forall i :: 0 <= i < |receivers| ==> d[i] == TrueDelay(sqrt, em, receivers[i])
  {
    seq(|receivers|, i requires 0 <= i < |receivers| => TrueDelay(sqrt, em, receivers[i]))
  }

  /** The true Doppler shift at every receiver. */
  function TrueDopplers(sqrt: real -> real, em: Emitter, receivers: seq<Receiver>): (d: seq<real>)
    requires forall i {:trigger receivers[i]} :: 0 <= i < |receivers| ==> DopplerDefined(sqrt, em, receivers[i])
    ensures |d| == |receivers| && forall i :: 0 <= i < |receivers| ==> d[i] == DopplerShift(sqrt, em, receivers[i])
  {
    seq(|receivers|, i requires 0 <= i < |receivers| => DopplerShift(sqrt, em, receivers[i]))
  }

  /** The TDOA half of the joint objective vanishes at the true position. */
  lemma TdoaPartVanishes(sqrt: real -> real, em: Emitter, receivers: seq<Receiver>)
    requires forall i :: 0 <= i < |receivers| ==> |receivers[i].position| == |em.position|
    requires 0 < |receivers| && Solver.MinReceivers(|em.position|, false) <= |receivers|
    ensures Solver.Tdoa(sqrt, em.position, Solver.Positions(receivers), Differenced(TrueDelays(sqrt, em, receivers)))
              == Ok(Zeros(|receivers| - 1))
  {
    var ps := Solver.Positions(receivers);
    var toa := Differenced(TrueDelays(sqrt, em, receivers));
    var r := Solver.Tdoa(sqrt, em.position, ps, toa);
    assert Solver.SameDims(em.position, ps);
    forall j | 0 <= j < |receivers| - 1
      ensures r.value[j] == 0.0
    {
      TdoaTermVanishes(sqrt, em, receivers[0], receivers[j + 1]);
    }
    assert r.value == Zeros(|receivers| - 1);
  }

  /** The FDOA half of the joint objective vanishes at the true position with the velocity
      negated. */
  lemma FdoaPartVanishes(sqrt: real -> real, em: Emitter, receivers: seq<Receiver>)
    requires em.frequency == Solver.NominalFrequency
    requires forall i {:trigger receivers[i]} :: 0 <= i < |receivers| ==> DopplerDefined(sqrt, em, receivers[i])
    requires 0 < |receivers| && Solver.MinReceivers(|em.position|, false) <= |receivers|
    ensures Solver.FdoaVKnown(sqrt, em.position, Neg(em.velocity), Solver.Positions(receivers),
                              Differenced(TrueDopplers(sqrt, em, receivers)))
              == Ok(Zeros(|receivers| - 1))
  {
    var ps := Solver.Positions(receivers);
    var fdoa := Differenced(TrueDopplers(sqrt, em, receivers));
    assert Solver.SameDims(em.position, ps);
    assert Solver.OffReceivers(sqrt, em.position, ps);
    var r := Solver.FdoaVKnown(sqrt, em.position, Neg(em.velocity), ps, fdoa);
    forall j | 0 <= j < |receivers| - 1
      ensures r.value[j] == 0.0
    {
      var d := TrueDopplers(sqrt, em, receivers);
      DifferencedAt(d, 0);
      DifferencedAt(d, j + 1);
      assert fdoa[0] == 0.0;
      assert fdoa[j + 1] == DopplerShift(sqrt, em, receivers[j + 1]) - DopplerShift(sqrt, em, receivers[0]);
      assert ps[0] == receivers[0].position && ps[j + 1] == receivers[j + 1].position;
      FdoaTermVanishes(sqrt, em, receivers[0], receivers[j + 1]);
    }
    assert r.value == Zeros(|receivers| - 1);
  }

  /** The zero-residual identity behind the experiment: with the true delays and Doppler shifts,
      differenced against receiver 0 as `simulate_doa` does, every residual of the joint
      objective vanishes at the state (true position, negated true velocity). */
  lemma TruthZeroesJointObjective(sqrt: real -> real, em: Emitter, receivers: seq<Receiver>)
    requires em.frequency == Solver.NominalFrequency
    requires forall i {:trigger receivers[i]} :: 0 <= i < |receivers| ==> DopplerDefined(sqrt, em, receivers[i])
    requires 0 < |receivers| && Solver.MinReceivers(|em.position|, false) <= |receivers|
    ensures Solver.FdoaWithTdoa(sqrt, em.position + Neg(em.velocity), Solver.Positions(receivers),
                                Differenced(TrueDopplers(sqrt, em, receivers)),
                                Differenced(TrueDelays(sqrt, em, receivers)))
              == Ok(Zeros(2 * (|receivers| - 1)))
  {
    var n := |receivers|;
    var z := em.position + Neg(em.velocity);
    assert Solver.PositionPart(z) == em.position;
    assert Solver.VelocityPart(z) == Neg(em.velocity);
    FdoaPartVanishes(sqrt, em, receivers);
    TdoaPartVanishes(sqrt, em, receivers);
    var ps := Solver.Positions(receivers);
    assert Solver.SameDims(em.position, ps);
    assert Solver.OffReceivers(sqrt, em.position, ps);
    var r := Solver.FdoaWithTdoa(sqrt, z, ps, Differenced(TrueDopplers(sqrt, em, receivers)),
                                 Differenced(TrueDelays(sqrt, em, receivers)));
    assert r.value == r.value[..n - 1] + r.value[n - 1..];
    assert r.value == Zeros(2 * (n - 1));
  }

  /** What the signal model reports as true values are the true delays and Doppler shifts, so
      the differenced lists `simulate_doa` hands its second solve zero the joint objective at
      (true position, negated true velocity). */
  lemma ReceivedTruthZeroesJointObjective(symbols: seq<int>, receivers: seq<Receiver>, em: Emitter,
                                          sqrt: real -> real, fractional: (seq<C>, real) -> seq<C>,
                                          cis: real -> C, gaussian: (real, nat) -> real, draw: nat)
    requires SameModeLength(fractional)
    requires em.frequency == Solver.NominalFrequency
    requires 0 < |receivers| && Solver.MinReceivers(|em.position|, false) <= |receivers|
    ensures var r := ReceiveEach(symbols, receivers, em, sqrt, fractional, cis, gaussian, draw);
            r.Ok? ==>
              AllWithTruth(r.value) &&
              Solver.FdoaWithTdoa(sqrt, em.position + Neg(em.velocity), Solver.Positions(receivers),
                                  Differenced(Dopplers(r.value)), Differenced(Delays(r.value)))
                == Ok(Zeros(2 * (|receivers| - 1)))
  {
    var r := ReceiveEach(symbols, receivers, em, sqrt, fractional, cis, gaussian, draw);
    if r.Ok? {
      var rs := r.value;
      ReceiveEachAt(symbols, receivers, em, sqrt, fractional, cis, gaussian, draw);
      forall i | 0 <= i < |receivers|
        ensures DopplerDefined(sqrt, em, receivers[i]) && rs[i].WithTruth?
        ensures rs[i].delay == TrueDelay(sqrt, em, receivers[i])
        ensures rs[i].doppler == DopplerShift(sqrt, em, receivers[i])
      {
        assert ReceptionAt(symbols, receivers, em, sqrt, fractional, cis, gaussian, draw, i) == Ok(rs[i]);
      }
      assert Delays(rs) == TrueDelays(sqrt, em, receivers);
      assert Dopplers(rs) == TrueDopplers(sqrt, em, receivers);
      TruthZeroesJointObjective(sqrt, em, receivers);
    }
  }
}
