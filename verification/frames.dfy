/** The expected output of the S/PDIF test model (class Frames): per channel
    a sequence of samples and a 192-bit channel-status string, assembled into
    subframes (sample, validity, user and status bits plus even parity) and
    rendered one text line per subframe, frame by frame. */
module Frames {
  import opened Results
  import opened Bits
  import opened Audio
  import opened ChannelStatus

  /** Per channel: rendered samples, validity flags, user data, status bits.
      The flag strings are read cyclically, one character per frame. */
  datatype Frames = Frames(samples: seq<seq<string>>, validity: seq<string>, user: seq<string>, status: seq<string>)

  /** Block start (Z), first channel (X), second channel (Y). */
  datatype Preamble = Z | X | Y

  function Letter(p: Preamble): char {
    match p
    case Z => 'Z'
    case X => 'X'
    case Y => 'Y'
  }

  /** One expected subframe: frame index, preamble and the 28-bit field. */
  datatype Subframe = Subframe(frame: nat, preamble: Preamble, field: string)

  /** The source renders a sample of the "none" policy only once: after it the
      value is None, which line 120 cannot mask. A channel of that policy with
      two or more samples is only harmless when an earlier channel's type has
      already been rejected. */
  predicate Renderable(channels: seq<(string, int)>, n: nat) {
    forall i :: 0 <= i < |channels| && n >= 2 && AsciiLower(channels[i].0) == "none" ==>
      exists k :: 0 <= k < i && ParsePolicy(channels[k].0, channels[k].1).Err?
  }

  /** The policy a channel entry [type, value] selects. */
  function PolicyOf(channel: (string, int)): Result<Policy> {
    ParsePolicy(channel.0, channel.1)
  }

  /** The first loop of Frames.__init__: every channel's samples, in channel
      order; the first unknown audio type aborts. */
  method AllSamples(channels: seq<(string, int)>, n: nat) returns (r: Result<seq<seq<string>>>)
    requires Renderable(channels, n)
    ensures r.Err? <==> exists i :: 0 <= i < |channels| && PolicyOf(channels[i]).Err?
    ensures r.Err? ==> r.error == UnsupportedAudioType
    ensures r.Ok? ==> |r.value| == |channels| && forall i :: 0 <= i < |channels| ==>
              && PolicyOf(channels[i]).Ok?
              && |r.value[i]| == n
              && forall k :: 0 <= k < n ==> r.value[i][k] == SampleBits(ValueAt(PolicyOf(channels[i]).value, k))
  {
    var samples: seq<seq<string>> := [];
    var i := 0;
    while i < |channels|
      invariant 0 <= i <= |channels| && |samples| == i
      invariant forall m :: 0 <= m < i ==> PolicyOf(channels[m]).Ok?
      invariant forall m :: 0 <= m < i ==> |samples[m]| == n
      invariant forall m, k :: 0 <= m < i && 0 <= k < n ==>
                  samples[m][k] == SampleBits(ValueAt(PolicyOf(channels[m]).value, k))
    {
      var policy :- PolicyOf(channels[i]);
      var s := ChannelSamples(policy, n);
      samples := samples + [s];
      i := i + 1;
    }
    r := Ok(samples);
  }

  /** The second loop of Frames.__init__, for any status builder: the
      strings of channels 1..count, in order; the first failing channel's
      error aborts. */
  method CollectBlocks(count: nat, block: nat -> Result<string>) returns (r: Result<seq<string>>)
    ensures r.Ok? <==> forall c: nat :: 1 <= c <= count ==> block(c).Ok?
    ensures r.Err? ==>
              exists c: nat :: 1 <= c <= count && block(c) == Err(r.error) && forall c': nat :: 1 <= c' < c ==> block(c').Ok?
    ensures r.Ok? ==> |r.value| == count && forall m :: 0 <= m < count ==> block(m + 1) == Ok(r.value[m])
  {
    var status: seq<string> := [];
    var i := 0;
    while i < count
      invariant 0 <= i <= count && |status| == i
      invariant forall m :: 0 <= m < i ==> block(m + 1) == Ok(status[m])
    {
      var b := block(i + 1);
      if b.Err? {
        assert block(i + 1) == Err(b.error);
        assert forall c': nat :: 1 <= c' < i + 1 ==> block(c') == Ok(status[c' - 1]);
        return Err(b.error);
      }
      status := status + [b.value];
      i := i + 1;
    }
    assert forall c: nat :: 1 <= c <= count ==> block(c) == Ok(status[c - 1]);
    r := Ok(status);
  }

  /** The status strings of channels 1..count for one configuration. An
      unsupported option fails every channel alike, so the error is the one
      channel 1 reports. */
  method AllStatus(count: nat, cfg: Config) returns (r: Result<seq<string>>)
    ensures r.Ok? <==> count == 0 || Supported(cfg)
    ensures r.Err? ==> r == Err(Block(cfg, 1).error)
    ensures r.Ok? ==> |r.value| == count && forall m :: 0 <= m < count ==> Block(cfg, m + 1) == Ok(r.value[m])
  {
    var block := (c: nat) => Block(cfg, c);
    r := CollectBlocks(count, block);
    if r.Err? {
      var c: nat :| 1 <= c <= count && Block(cfg, c) == Err(r.error);
      ErrorIgnoresChannel(cfg, c, 1);
    } else if count > 0 {
      assert block(1).Ok?;
    }
  }

  /** Frames.__init__ with `channels` and `no_of_samples` n (the `sources`
      branch is not modelled). Every channel's samples are generated before
      any status string is built, so a bad audio type is reported first. */
  method NewFrames(channels: seq<(string, int)>, n: nat, cfg: Config) returns (r: Result<Frames>)
    requires Renderable(channels, n)
    ensures (exists i :: 0 <= i < |channels| && PolicyOf(channels[i]).Err?) ==> r == Err(UnsupportedAudioType)
    ensures (forall i :: 0 <= i < |channels| ==> PolicyOf(channels[i]).Ok?) ==>
              (r.Ok? <==> |channels| == 0 || Supported(cfg))
    ensures (forall i :: 0 <= i < |channels| ==> PolicyOf(channels[i]).Ok?) && |channels| > 0 && !Supported(cfg) ==>
              r == Err(Block(cfg, 1).error)
    ensures r.Ok? ==>
              var fr := r.value;
              && |fr.samples| == |fr.validity| == |fr.user| == |fr.status| == |channels|
              && forall i :: 0 <= i < |channels| ==>
                   && PolicyOf(channels[i]).Ok?
                   && |fr.samples[i]| == n
                   && (forall k :: 0 <= k < n ==>
                         fr.samples[i][k] == SampleBits(ValueAt(PolicyOf(channels[i]).value, k)))
                   && fr.validity[i] == "0" && fr.user[i] == "0"
                   && Block(cfg, i + 1) == Ok(fr.status[i])
    ensures r.Ok? && 1 <= |channels| <= 2 && IsBinary(cfg.preEmphasis) ==> Transmittable(r.value)
  {
    var samples :- AllSamples(channels, n);
    var status :- AllStatus(|samples|, cfg);
    var flags := seq(|samples|, _ => "0");
    if 1 <= |channels| <= 2 && IsBinary(cfg.preEmphasis) {
      forall i | 0 <= i < |status|
        ensures |status[i]| > 0 && IsBinary(status[i])
      {
        BlockLayout(cfg, i + 1);
      }
      forall i, k | 0 <= i < |samples| && 0 <= k < |samples[i]|
        ensures |samples[i][k]| == SampleWidth && IsBinary(samples[i][k])
      {
        assert samples[i][k] == SampleBits(ValueAt(PolicyOf(channels[i]).value, k));
      }
      DefaultsTransmittable(samples, status, n);
    }
    r := Ok(Frames(samples, flags, flags, status));
  }

  /** Frames built from sample strings and binary status strings, with the
      validity and user flags all "0", can be put on the wire. */
  lemma DefaultsTransmittable(samples: seq<seq<string>>, status: seq<string>, n: nat)
    requires 1 <= |samples| <= 2 && |status| == |samples|
    requires forall i :: 0 <= i < |samples| ==> |samples[i]| == n
    requires forall i, k :: 0 <= i < |samples| && 0 <= k < |samples[i]| ==>
               |samples[i][k]| == SampleWidth && IsBinary(samples[i][k])
    requires forall i :: 0 <= i < |status| ==> |status[i]| > 0 && IsBinary(status[i])
    ensures Transmittable(Frames(samples, seq(|samples|, _ => "0"), seq(|samples|, _ => "0"), status))
  {
    assert IsBinary("0");
  }

  /** What expect() needs of a Frames value: one or two channels (only the X
      and Y letters exist for channels), enough samples in every channel, and
      non-empty flag strings to index cyclically. */
  predicate WellFormed(fr: Frames) {
    && 1 <= |fr.samples| <= 2
    && |fr.validity| >= |fr.samples| && |fr.user| >= |fr.samples| && |fr.status| >= |fr.samples|
    && forall i :: 0 <= i < |fr.samples| ==>
         |fr.samples[i]| >= |fr.samples[0]| && |fr.validity[i]| > 0 && |fr.user[i]| > 0 && |fr.status[i]| > 0
  }

  /** Every sample is 24 bits wide and every character the subframes take
      from `fr` is a bit. */
  predicate Transmittable(fr: Frames) {
    && WellFormed(fr)
    && (forall i, k :: 0 <= i < |fr.samples| && 0 <= k < |fr.samples[i]| ==>
          |fr.samples[i][k]| == SampleWidth && IsBinary(fr.samples[i][k]))
    && (forall i :: 0 <= i < |fr.samples| ==> IsBinary(fr.validity[i]) && IsBinary(fr.user[i]) && IsBinary(fr.status[i]))
  }

  /** The preamble of the subframe of `channel` in frame `frame`. */
  function PreambleFor(channel: nat, frame: nat): (p: Preamble)
    requires channel < 2
    ensures p == Z <==> channel == 0 && frame % 192 == 0
    ensures p == X <==> channel == 0 && frame % 192 != 0
    ensures p == Y <==> channel == 1
  {
    if channel == 0 && frame % 192 == 0 then Z else [X, Y][channel]
  }

  /** Appends the even-parity bit. */
  function WithParity(body: string): (r: string)
    ensures |r| == |body| + 1 && r[..|body|] == body
    ensures CountOnes(r) % 2 == 0
    ensures IsBinary(body) ==> IsBinary(r)
  {
    var bit := [BitChar(CountOnes(body) % 2 == 1)];
    CountOnesAppend(body, bit);
    assert CountOnes(bit[1..]) == 0;
    var r := body + bit;
    assert r[..|body|] == body;
    BinaryAppend(body, bit);
    r
  }

  /** The 28-bit field of the subframe of `channel` in frame `frame`:
      sample, validity, user and channel-status bit, then parity. */
  function Field(fr: Frames, channel: nat, frame: nat): (r: string)
    requires WellFormed(fr) && channel < |fr.samples| && frame < |fr.samples[0]|
    ensures |r| == |fr.samples[channel][frame]| + 4
    ensures r[..|fr.samples[channel][frame]|] == fr.samples[channel][frame]
    ensures r[|fr.samples[channel][frame]|] == fr.validity[channel][frame % |fr.validity[channel]|]
    ensures r[|fr.samples[channel][frame]| + 1] == fr.user[channel][frame % |fr.user[channel]|]
    ensures r[|fr.samples[channel][frame]| + 2] == fr.status[channel][frame % |fr.status[channel]|]
    ensures CountOnes(r) % 2 == 0
  {
    var body := fr.samples[channel][frame]
      + [fr.validity[channel][frame % |fr.validity[channel]|]]
      + [fr.user[channel][frame % |fr.user[channel]|]]
      + [fr.status[channel][frame % |fr.status[channel]|]];
    var r := WithParity(body);
    assert r[..|body|][..|fr.samples[channel][frame]|] == fr.samples[channel][frame];
    r
  }

  /** Fields of transmittable frames are 28 bits. */
  lemma FieldBinary(fr: Frames, channel: nat, frame: nat)
    requires Transmittable(fr) && channel < |fr.samples| && frame < |fr.samples[0]|
    ensures |Field(fr, channel, frame)| == 28 && IsBinary(Field(fr, channel, frame))
  {
    var sample := fr.samples[channel][frame];
    var v := fr.validity[channel][frame % |fr.validity[channel]|];
    var u := fr.user[channel][frame % |fr.user[channel]|];
    var c := fr.status[channel][frame % |fr.status[channel]|];
    assert IsBinary([v]) && IsBinary([u]) && IsBinary([c]);
    BinaryAppend(sample, [v]);
    BinaryAppend(sample + [v], [u]);
    BinaryAppend(sample + [v] + [u], [c]);
  }

  /** The subframes of the first `frames` frames, frame by frame and channel
      by channel within a frame. */
  function Subframes(fr: Frames, frames: nat): (r: seq<Subframe>)
    requires WellFormed(fr) && frames <= |fr.samples[0]|
    ensures |r| == frames * |fr.samples|
    ensures forall k :: 0 <= k < |r| ==>
              var (j, i) := (k / |fr.samples|, k % |fr.samples|);
              r[k] == Subframe(j, PreambleFor(i, j), Field(fr, i, j))
  {
    var c := |fr.samples|;
    if frames == 0 then []
    else
      var prev := Subframes(fr, frames - 1);
      var frame := seq(c, i requires 0 <= i < c => Subframe(frames - 1, PreambleFor(i, frames - 1), Field(fr, i, frames - 1)));
      assert |prev| == (frames - 1) * c;
      assert forall k :: |prev| <= k < |prev| + c ==> k / c == frames - 1 && k % c == k - |prev|;
      prev + frame
  }

  /** sub_frame_string: the sample number in decimal, the preamble in
      brackets, " - ", the subframe, a space and the transitions. */
  function SubFrameString(sampleNo: nat, preamble: string, subframe: string, transitions: string): (r: string)
    ensures var d := |Decimal(sampleNo)|;
            var q := d + 5 + |preamble|;
            && |r| == q + |subframe| + 1 + |transitions|
            && IsDecimal(r[..d]) && DecimalValue(r[..d]) == sampleNo
            && r[d] == '[' && r[d + 1..d + 1 + |preamble|] == preamble && r[d + 1 + |preamble|..q] == "] - "
            && r[q..q + |subframe|] == subframe && r[q + |subframe|] == ' '
            && r[q + |subframe| + 1..] == transitions
  {
    var digits := Decimal(sampleNo);
    var r := digits + "[" + preamble + "] - " + subframe + " " + transitions;
    var d, q := |digits|, |digits| + 5 + |preamble|;
    assert r[..d] == digits;
    assert r[d + 1..d + 1 + |preamble|] == preamble;
    assert r[d + 1 + |preamble|..q] == "] - ";
    assert r[q..q + |subframe|] == subframe;
    assert r[q + |subframe| + 1..] == transitions;
    r
  }

  /** A line determines what it renders: two lines with preambles of one
      length and subframes of one length are equal only when their sample
      numbers, preambles, subframes and transitions are. */
  lemma SubFrameStringFields(n1: nat, p1: string, s1: string, t1: string, n2: nat, p2: string, s2: string, t2: string)
    requires |p1| == |p2| && |s1| == |s2|
    requires SubFrameString(n1, p1, s1, t1) == SubFrameString(n2, p2, s2, t2)
    ensures n1 == n2 && p1 == p2 && s1 == s2 && t1 == t2
  {
  }

  /** The transition column expect() always shows: 28 cell-boundary transitions. */
  const TransitionsOk: string := Ones(28) + "\n"

  /** The text line of one subframe. */
  function Render(sf: Subframe): string {
    SubFrameString(sf.frame, [Letter(sf.preamble)], sf.field, TransitionsOk)
  }

  /** expect(): one line per subframe, frame-major. The source concatenates
      these lines into one string; each ends in the only newline it holds. */
  function Expect(fr: Frames): (lines: seq<string>)
    requires WellFormed(fr)
    ensures |lines| == |fr.samples[0]| * |fr.samples|
    ensures forall k :: 0 <= k < |lines| ==>
              var (j, i) := (k / |fr.samples|, k % |fr.samples|);
              lines[k] == SubFrameString(j, [Letter(PreambleFor(i, j))], Field(fr, i, j), TransitionsOk)
  {
    var sfs := Subframes(fr, |fr.samples[0]|);
    seq(|sfs|, k requires 0 <= k < |sfs| => Render(sfs[k]))
  }
}
