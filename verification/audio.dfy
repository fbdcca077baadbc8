/** Audio sample generation: the per-channel policies of `Audio_func` and the
    sample loop of `Frames.__init__`, which renders each sample as a 24-bit
    LSB-first bit string. */
module Audio {
  import opened Results
  import opened Bits

  /** Samples are 24 bits wide. */
  const SampleWidth: nat := 24
  const SampleModulus: nat := 0x100_0000

  /** `NoAudio` is the "none" policy. The value given with it is unused. */
  datatype Policy = NoAudio | Fixed(value: int) | Ramp(step: int)

  /** Audio_func's constructor: the type name is compared case-insensitively
      against "none", "fixed" and "ramp"; anything else is rejected. */
  function ParsePolicy(kind: string, value: int): (r: Result<Policy>)
    ensures r.Ok? <==> AsciiLower(kind) in {"none", "fixed", "ramp"}
    ensures r.Err? ==> r.error == UnsupportedAudioType
    ensures r == Ok(NoAudio) <==> AsciiLower(kind) == "none"
    ensures r == Ok(Fixed(value)) <==> AsciiLower(kind) == "fixed"
    ensures r == Ok(Ramp(value)) <==> AsciiLower(kind) == "ramp"
  {
    var name := AsciiLower(kind);
    if name == "none" then Ok(NoAudio)
    else if name == "fixed" then Ok(Fixed(value))
    else if name == "ramp" then Ok(Ramp(value))
    else Err(UnsupportedAudioType)
  }

  /** Audio_func.next: the value following `previous` (None is Python's None).
      A ramp keeps counting without wrapping; wrapping happens when a value is
      rendered. */
  function Next(p: Policy, previous: Option<int>): (r: Option<int>)
    ensures p.NoAudio? ==> r == None
    ensures p.Fixed? ==> r == Some(p.value)
    ensures p.Ramp? ==> (r.Some? <==> previous.Some?)
    ensures p.Ramp? && previous.Some? ==> r.value - previous.value == p.step
  {
    match p
    case NoAudio => None
    case Fixed(v) => Some(v)
    case Ramp(step) => if previous.Some? then Some(previous.value + step) else None
  }

  /** Reference definition of the k-th value of a channel (the generator starts
      from 0): 0 at k = 0, then the fixed value, or k steps of the ramp. */
  function ValueAt(p: Policy, k: nat): int
    requires p.NoAudio? ==> k == 0
  {
    if k == 0 then 0
    else match p
      case Fixed(v) => v
      case Ramp(step) => k * step
  }

  lemma Pow2SampleWidth()
    ensures Pow2(SampleWidth) == SampleModulus
  {
    assert Pow2(12) == 4096;
  }

  /** A sample as the source renders it: masked to 24 bits (Python's & on a
      negative int is two's complement, i.e. the Euclidean remainder), written
      as 24 binary digits and reversed, so bit k of the sample is character k. */
  function SampleBits(v: int): (r: string)
    ensures |r| == SampleWidth && IsBinary(r)
    ensures LsbValue(r) == v % SampleModulus
    ensures v % SampleModulus == 0 ==> r == Zeros(SampleWidth)
  {
    Pow2SampleWidth();
    var digits := FormatBin(v % SampleModulus, SampleWidth);
    LsbValueOfReverse(digits);
    assert v % SampleModulus == 0 ==> digits == Zeros(SampleWidth) by {
      BinaryFits(0, SampleWidth);
    }
    Reverse(digits)
  }

  /** The sample loop of Frames.__init__ for one channel: n samples, starting
      from the value 0 and applying the policy's `next` after each sample.
      The "none" policy yields None after the first sample, which the source
      cannot render, so it is only called with at most one sample. */
  method ChannelSamples(p: Policy, n: nat) returns (samples: seq<string>)
    requires p.NoAudio? ==> n <= 1
    ensures |samples| == n
    ensures forall k :: 0 <= k < n ==> samples[k] == SampleBits(ValueAt(p, k))
    ensures n > 0 ==> samples[0] == Zeros(SampleWidth)
    ensures p.Ramp? ==> forall k :: 0 <= k < n ==> LsbValue(samples[k]) == (k * p.step) % SampleModulus
    ensures p.Fixed? ==> forall k :: 1 <= k < n ==> samples[k] == SampleBits(p.value)
  {
    samples := [];
    var value: Option<int> := Some(0);
    var k := 0;
    while k < n
      invariant 0 <= k <= n
      invariant |samples| == k
      invariant forall m :: 0 <= m < k ==> samples[m] == SampleBits(ValueAt(p, m))
      invariant k < n ==> value == Some(ValueAt(p, k))
    {
      samples := samples + [SampleBits(value.value)];
      if k + 1 < n {
        NextIsValueAt(p, k);
      }
      value := Next(p, value);
      k := k + 1;
    }
  }

  lemma NextIsValueAt(p: Policy, k: nat)
    requires !p.NoAudio?
    ensures Next(p, Some(ValueAt(p, k))) == Some(ValueAt(p, k + 1))
  {
    if p.Ramp? {
      assert (k + 1) * p.step == k * p.step + p.step;
    }
  }
}
