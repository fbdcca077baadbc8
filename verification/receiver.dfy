/** The receiver of the test model (Spdif_rx): on every `divider`-th rising
    edge of its clock it samples the S/PDIF pin, appends a transition symbol to
    a window of the newest 64 symbols, and prints a line whenever the oldest
    eight symbols of the window are a preamble. It counts second-channel
    preambles and ends the run once it has seen the requested number. */
module Receiver {
  import opened Results
  import opened Bits
  import opened Clock
  import opened Frames
  import opened Biphase

  const WindowSize: nat := 64

  /** `pin` is the last sampled level, `window` the symbols seen (at most 64),
      `frameCount` the number of Y preambles seen, `target` the number of
      frames to receive, `div` the divider counter and `done` records that the
      run has ended (the source exits the process there). */
  datatype Rx = Rx(clock: Clock, pin: int, window: string, frameCount: nat, target: int,
                   divider: int, div: int, done: bool)

  /** Spdif_rx.__init__ (the ports are not modelled). The divider is the number
      of master-clock cycles per half cell: mclk / (rate * 128). */
  function NewReceiver(samFreq: int, mclkFreq: int, samples: int): (r: Result<Rx>)
    requires samFreq > 0 && mclkFreq > 0
    ensures r.Ok? <==> mclkFreq <= MaxFrequency
    ensures r.Err? ==> r.error == FrequencyTooHigh
    ensures r.Ok? ==> var rx := r.value;
              && rx.clock == Clock(2 * mclkFreq, 0)
              && rx.pin == 0 && rx.window == [] && rx.frameCount == 0 && rx.target == samples
              && rx.div == 0 && !rx.done
              && rx.divider >= 0
              && rx.divider * (samFreq * 128) <= mclkFreq < (rx.divider + 1) * (samFreq * 128)
  {
    var clock :- NewClock(mclkFreq);
    var divider := mclkFreq / (samFreq * 128);
    DividerBounds(mclkFreq, samFreq * 128);
    Ok(Rx(clock, 0, [], 0, samples, divider, 0, false))
  }

  lemma DividerBounds(a: nat, b: int)
    requires b > 0
    ensures (a / b) * b <= a < (a / b + 1) * b
  {
    assert a == (a / b) * b + a % b;
    assert (a / b + 1) * b == (a / b) * b + b;
  }

  /** One tick's outcome: the new receiver and the line printed, if any. */
  datatype Step = Step(rx: Rx, line: Option<string>)

  /** in_buff[:8]: the oldest eight symbols, or the whole window while it is shorter. */
  function Head(w: string): (r: string)
    ensures |r| <= 8 && |r| <= |w| && r == w[..|r|]
    ensures |r| < 8 ==> r == w
  {
    if |w| >= 8 then w[..8] else w
  }

  /** The printed line: frame count, preamble letter, the mid-cell symbols
      (in_buff[9::2], the data bits) and the cell-boundary symbols
      (in_buff[8::2]); print ends it with a newline. It has the format of
      sub_frame_string, with the mid-cell symbols as the subframe. */
  function Report(frameCount: nat, letter: char, w: string): (r: string)
    ensures r == SubFrameString(frameCount, [letter], Stride2(w, 9), Stride2(w, 8) + "\n")
  {
    var line := Decimal(frameCount) + "[" + [letter] + "] - " + Stride2(w, 9) + " " + Stride2(w, 8) + "\n";
    assert line == Decimal(frameCount) + "[" + [letter] + "] - " + Stride2(w, 9) + " " + (Stride2(w, 8) + "\n");
    line
  }

  /** in_buff[-63:] + sym: the window keeps its newest 63 symbols and takes the new one. */
  function Shift(w: string, sym: char): (r: string)
    ensures |r| == (if |w| < WindowSize then |w| + 1 else WindowSize)
    ensures r[|r| - 1] == sym
    ensures r[..|r| - 1] == w[|w| - (|r| - 1)..]
  {
    var kept := if |w| > WindowSize - 1 then w[|w| - (WindowSize - 1)..] else w;
    assert (kept + [sym])[..|kept|] == kept;
    kept + [sym]
  }

  /** The body of on_high under `if self._div == 0`, for the sampled level `pin`. */
  function Sample(r: Rx, pin: int): (s: Step)
    requires !r.done
    ensures s.rx.window == Shift(r.window, BitChar(pin != r.pin))
    ensures s.rx.pin == pin
    ensures s.rx.frameCount == r.frameCount || s.rx.frameCount == r.frameCount + 1
    ensures s.rx.done <==> s.rx.frameCount >= r.target
    ensures s.rx == r.(pin := s.rx.pin, window := s.rx.window, frameCount := s.rx.frameCount, done := s.rx.done)
  {
    var window := Shift(r.window, BitChar(pin != r.pin));
    var found := Recognize(Head(window));
    var line := if found.Some? then Some(Report(r.frameCount, Letter(found.value), window)) else None;
    var frameCount := if found == Some(Y) then r.frameCount + 1 else r.frameCount;
    Step(r.(pin := pin, window := window, frameCount := frameCount, done := frameCount >= r.target), line)
  }

  /** What a sample prints: a line exactly when the oldest eight symbols of the
      new window are a preamble, carrying the count so far, the preamble's
      letter and the window; the count goes up on Y preambles only. */
  lemma SampleReports(r: Rx, pin: int)
    requires !r.done
    ensures var s := Sample(r, pin);
            && (s.line.Some? <==> IsPreamble(Head(s.rx.window)))
            && (forall p :: Head(s.rx.window) == Pattern(p) ==>
                  s.line == Some(Report(r.frameCount, Letter(p), s.rx.window)))
            && s.rx.frameCount == r.frameCount + (if Head(s.rx.window) == PreambleY then 1 else 0)
  {
    RecognizeSpec(Head(Sample(r, pin).rx.window));
  }

  /** The divider is usable and its counter in range. */
  predicate Counting(r: Rx) {
    1 <= r.divider && 0 <= r.div < r.divider
  }

  /** A sampling step: defined on every running receiver and leaving the
      divider and its counter alone. */
  ghost predicate Sampler(sample: (Rx, int) --> Step) {
    forall q: Rx, p: int :: !q.done ==>
      && sample.requires(q, p)
      && sample(q, p).rx.divider == q.divider
      && sample(q, p).rx.div == q.div
  }

  /** The sampling body of on_high as a step. */
  const Sampling: (Rx, int) --> Step := (q: Rx, p: int) requires !q.done => Sample(q, p)

  lemma SamplingIsSampler()
    ensures Sampler(Sampling)
  {
  }

  /** The counter after a tick, (div + 1) % divider, without the modulo. */
  function Advance(r: Rx): (d: int)
    requires Counting(r)
    ensures d == (r.div + 1) % r.divider
  {
    if r.div + 1 < r.divider then r.div + 1 else 0
  }

  /** on_high around a sampling step: sample when the divider counter is 0,
      then advance the counter modulo the divider. The tick that ends the run
      leaves the counter alone. */
  function OnHigh(sample: (Rx, int) --> Step, r: Rx, pin: int): (s: Step)
    requires Sampler(sample) && !r.done && Counting(r)
    ensures Counting(s.rx) && s.rx.divider == r.divider
    ensures r.div != 0 ==> s == Step(r.(div := Advance(r)), None)
    ensures r.div == 0 ==> s.line == sample(r, pin).line && s.rx == sample(r, pin).rx.(div := s.rx.div)
    ensures !s.rx.done ==> s.rx.div == Advance(r)
    ensures s.rx.done ==> s.rx.div == r.div
  {
    if r.div == 0 then
      var st := sample(r, pin);
      if st.rx.done then st else Step(st.rx.(div := Advance(r)), st.line)
    else Step(r.(div := Advance(r)), None)
  }

  /** The lines of a run and the receiver after it. */
  datatype Run = Run(rx: Rx, lines: seq<string>)

  function Lines(line: Option<string>): seq<string> {
    if line.Some? then [line.value] else []
  }

  /** Feeding inputs to a step function until the run ends. */
  function Steps(step: (Rx, int) --> Step, inv: Rx -> bool, r: Rx, pins: seq<int>): (x: Run)
    requires forall q: Rx, p: int :: inv(q) && !q.done ==> step.requires(q, p)
    requires forall q: Rx, p: int :: inv(q) && !q.done && step.requires(q, p) ==> inv(step(q, p).rx)
    requires inv(r)
    ensures inv(x.rx)
    decreases |pins|
  {
    if |pins| == 0 || r.done then Run(r, [])
    else
      var p: int := pins[0];
      var s := step(r, p);
      var rest := Steps(step, inv, s.rx, pins[1..]);
      Run(rest.rx, Lines(s.line) + rest.lines)
  }

  lemma StepsCons(step: (Rx, int) --> Step, inv: Rx -> bool, r: Rx, pins: seq<int>)
    requires forall q: Rx, p: int :: inv(q) && !q.done ==> step.requires(q, p)
    requires forall q: Rx, p: int :: inv(q) && !q.done && step.requires(q, p) ==> inv(step(q, p).rx)
    requires inv(r) && |pins| > 0 && !r.done
    ensures var p: int := pins[0];
            var s := step(r, p);
            var rest := Steps(step, inv, s.rx, pins[1..]);
            Steps(step, inv, r, pins) == Run(rest.rx, Lines(s.line) + rest.lines)
  {
  }

  /** Running two pieces of input one after the other. */
  lemma {:induction false} StepsAppend(step: (Rx, int) --> Step, inv: Rx -> bool, r: Rx, a: seq<int>, b: seq<int>)
    requires forall q: Rx, p: int :: inv(q) && !q.done ==> step.requires(q, p)
    requires forall q: Rx, p: int :: inv(q) && !q.done && step.requires(q, p) ==> inv(step(q, p).rx)
    requires inv(r)
    ensures Steps(step, inv, r, a + b) ==
              var x := Steps(step, inv, r, a);
              var y := Steps(step, inv, x.rx, b);
              Run(y.rx, x.lines + y.lines)
    decreases |a|
  {
    if |a| == 0 {
      assert a + b == b;
    } else if !r.done {
      assert (a + b)[0] == a[0] && (a + b)[1..] == a[1..] + b;
      StepsAppend(step, inv, step(r, a[0]).rx, a[1..], b);
    }
  }

  /** Sampling a sequence of levels, one per half cell, until the run ends. */
  function SampleRun(r: Rx, pins: seq<int>): Run {
    Steps(Sampling, _ => true, r, pins)
  }

  lemma SampleRunCons(r: Rx, pins: seq<int>)
    requires |pins| > 0 && !r.done
    ensures var s := Sample(r, pins[0]);
            var rest := SampleRun(s.rx, pins[1..]);
            SampleRun(r, pins) == Run(rest.rx, Lines(s.line) + rest.lines)
  {
    StepsCons(Sampling, _ => true, r, pins);
  }

  lemma SampleRunAppend(r: Rx, a: seq<int>, b: seq<int>)
    ensures SampleRun(r, a + b) ==
              var x := SampleRun(r, a);
              var y := SampleRun(x.rx, b);
              Run(y.rx, x.lines + y.lines)
  {
    StepsAppend(Sampling, _ => true, r, a, b);
  }

  /** The on_high step for a sampling step. */
  function Ticking(sample: (Rx, int) --> Step): (Rx, int) --> Step
    requires Sampler(sample)
  {
    (q: Rx, p: int) requires !q.done && Counting(q) => OnHigh(sample, q, p)
  }

  /** Clock ticks with the level seen at each tick, until the run ends. */
  function TickRun(sample: (Rx, int) --> Step, r: Rx, ticks: seq<int>): (x: Run)
    requires Sampler(sample) && Counting(r)
    ensures Counting(x.rx)
  {
    Steps(Ticking(sample), Counting, r, ticks)
  }

  lemma TickRunCons(sample: (Rx, int) --> Step, r: Rx, ticks: seq<int>)
    requires Sampler(sample) && Counting(r) && |ticks| > 0 && !r.done
    ensures var s := OnHigh(sample, r, ticks[0]);
            var rest := TickRun(sample, s.rx, ticks[1..]);
            TickRun(sample, r, ticks) == Run(rest.rx, Lines(s.line) + rest.lines)
  {
    StepsCons(Ticking(sample), Counting, r, ticks);
  }

  lemma TickRunAppend(sample: (Rx, int) --> Step, r: Rx, a: seq<int>, b: seq<int>)
    requires Sampler(sample) && Counting(r)
    ensures TickRun(sample, r, a + b) ==
              var x := TickRun(sample, r, a);
              var y := TickRun(sample, x.rx, b);
              Run(y.rx, x.lines + y.lines)
  {
    StepsAppend(Ticking(sample), Counting, r, a, b);
  }

  lemma TickRunEmpty(sample: (Rx, int) --> Step, r: Rx, ticks: seq<int>)
    requires Sampler(sample) && Counting(r) && (|ticks| == 0 || r.done)
    ensures TickRun(sample, r, ticks) == Run(r, [])
  {
  }

  /** Each level held for `d` ticks. */
  function Hold(pins: seq<int>, d: nat): (r: seq<int>)
    ensures |r| == |pins| * d
  {
    if |pins| == 0 then [] else seq(d, _ => pins[0]) + Hold(pins[1..], d)
  }

  /** Between two samples the counter runs back to 0 and the pin is ignored. */
  lemma {:induction false} IdleTicks(sample: (Rx, int) --> Step, r: Rx, ticks: seq<int>)
    requires Sampler(sample) && Counting(r) && !r.done && r.div >= 1
    requires |ticks| == r.divider - r.div
    ensures TickRun(sample, r, ticks) == Run(r.(div := 0), [])
    decreases |ticks|
  {
    TickRunCons(sample, r, ticks);
    var s := OnHigh(sample, r, ticks[0]);
    if r.div + 1 < r.divider {
      IdleTicks(sample, s.rx, ticks[1..]);
    } else {
      TickRunEmpty(sample, s.rx, ticks[1..]);
    }
  }

  /** One level held for a whole divider period, from a counter of 0, is
      sampled exactly once. */
  lemma GroupRun(sample: (Rx, int) --> Step, r: Rx, p: int)
    requires Sampler(sample) && Counting(r) && r.div == 0 && !r.done
    ensures var s := sample(r, p);
            TickRun(sample, r, seq(r.divider, _ => p)) == Run(s.rx, Lines(s.line))
  {
    var group := seq(r.divider, _ => p);
    TickRunCons(sample, r, group);
    var t := OnHigh(sample, r, p);
    if t.rx.done || r.divider == 1 {
      TickRunEmpty(sample, t.rx, group[1..]);
    } else {
      IdleTicks(sample, t.rx, group[1..]);
    }
  }

  /** The divider samples exactly once every `divider` ticks: holding each
      level for `divider` ticks from a counter of 0 gives the same run as
      sampling every level once. */
  lemma {:induction false} HoldRunWith(sample: (Rx, int) --> Step, r: Rx, pins: seq<int>)
    requires Sampler(sample) && Counting(r) && r.div == 0
    ensures TickRun(sample, r, Hold(pins, r.divider)) == Steps(sample, _ => true, r, pins)
    decreases |pins|
  {
    if |pins| > 0 && !r.done {
      var d := r.divider;
      var group := seq(d, _ => pins[0]);
      assert Hold(pins, d) == group + Hold(pins[1..], d);
      TickRunAppend(sample, r, group, Hold(pins[1..], d));
      GroupRun(sample, r, pins[0]);
      StepsCons(sample, _ => true, r, pins);
      HoldRunWith(sample, sample(r, pins[0]).rx, pins[1..]);
    }
  }

  lemma HoldRun(r: Rx, pins: seq<int>)
    requires Counting(r) && r.div == 0
    ensures TickRun(Sampling, r, Hold(pins, r.divider)) == SampleRun(r, pins)
  {
    HoldRunWith(Sampling, r, pins);
  }
}
