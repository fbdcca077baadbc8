/** The loopback the tests perform: the subframes expect() describes, put on
    the wire in biphase-mark form and sampled by the receiver model, are
    printed back as exactly the lines expect() returns. */
module RoundTrip {
  import opened Results
  import opened Bits
  import opened Frames
  import opened Biphase
  import opened Receiver

  /** The odd symbols after the preamble of a subframe are its field and the
      even ones are all cell-boundary transitions. */
  lemma StridesOfCells(e: string, f: string)
    requires |e| == WindowSize && |f| == 28
    requires forall k :: 0 <= k < 28 ==> e[8 + 2 * k] == '1' && e[9 + 2 * k] == f[k]
    ensures Stride2(e, 9) == f && Stride2(e, 8) == Ones(28)
  {
    var odd, even := Stride2(e, 9), Stride2(e, 8);
    forall k | 0 <= k < 28
      ensures odd[k] == f[k] && even[k] == '1'
    {
      assert odd[k] == e[9 + 2 * k] && even[k] == e[8 + 2 * k];
    }
    assert |odd| == |f| && |even| == |Ones(28)|;
  }

  /** The receiver's line for a correctly received subframe is the line
      expect() renders for it. */
  lemma ReportIsRender(count: nat, p: Preamble, f: string)
    requires |f| == 28
    ensures Report(count, Letter(p), Encode(p, f)) == Render(Subframe(count, p, f))
  {
    StridesOfCells(Encode(p, f), f);
    ReportOfStrides(count, Letter(p), Encode(p, f), f);
  }

  lemma ReportOfStrides(count: nat, letter: char, w: string, f: string)
    requires Stride2(w, 9) == f && Stride2(w, 8) == Ones(28)
    ensures Report(count, letter, w) == SubFrameString(count, [letter], f, TransitionsOk)
  {
    var head := Decimal(count) + "[" + [letter] + "] - " + f + " ";
    assert head + Ones(28) + "\n" == head + (Ones(28) + "\n");
  }

  /** A full window takes one symbol: the oldest symbol drops out, the pin
      follows the symbol, and nothing is printed unless the new head is a
      preamble. */
  lemma QuietStep(r: Rx, sym: char)
    requires !r.done && r.frameCount < r.target && |r.window| == WindowSize && (sym == '0' || sym == '1')
    requires !IsPreamble(r.window[1..9])
    ensures var t := Toggle(r.pin, sym);
            Sample(r, t) == Step(r.(pin := t, window := r.window[1..] + [sym]), None)
  {
    var t := Toggle(r.pin, sym);
    var s := Sample(r, t);
    assert BitChar(t != r.pin) == sym;
    assert s.rx.window == r.window[1..] + [sym];
    assert Head(s.rx.window) == r.window[1..9];
    SampleReports(r, t);
  }

  /** The first symbol of a quiet stretch: with the window on all[i..i + 64]
      and no preamble at i + 1, the symbol at i + 64 is taken in silently. */
  lemma QuietFirst(r: Rx, all: string, i: nat, j: nat)
    requires i + WindowSize < j <= |all|
    requires all[i + WindowSize] == '0' || all[i + WindowSize] == '1'
    requires !r.done && r.frameCount < r.target && r.window == all[i..i + WindowSize]
    requires !PreambleAt(all, i + 1)
    ensures var syms := all[i + WindowSize..j];
            var t := Toggle(r.pin, syms[0]);
            SampleRun(r, Pins(r.pin, syms)) ==
              SampleRun(r.(pin := t, window := all[i + 1..i + 1 + WindowSize]), Pins(t, syms[1..]))
  {
    var syms := all[i + WindowSize..j];
    var t := Toggle(r.pin, syms[0]);
    var pins := Pins(r.pin, syms);
    assert syms[0] == all[i + WindowSize];
    assert r.window[1..9] == all[i + 1..i + 9] by {
      assert forall k :: 0 <= k < 8 ==> r.window[1..9][k] == all[i + 1 + k];
    }
    QuietStep(r, syms[0]);
    assert r.window[1..] + [syms[0]] == all[i + 1..i + 1 + WindowSize];
    assert pins[0] == t && pins[1..] == Pins(t, syms[1..]);
    SampleRunCons(r, pins);
  }

  /** Symbols that never bring a preamble to the head of the window are taken
      in silently: with the window on all[i..i + 64], feeding the symbols up
      to j prints nothing, moves the window to all[j - 64..j] and leaves the
      pin where the symbols took it. */
  lemma {:induction false} QuietRun(r: Rx, all: string, i: nat, j: nat)
    requires i + WindowSize <= j <= |all|
    requires forall k :: i + WindowSize <= k < j ==> all[k] == '0' || all[k] == '1'
    requires !r.done && r.frameCount < r.target && r.window == all[i..i + WindowSize]
    requires forall m :: i < m <= j - WindowSize ==> !PreambleAt(all, m)
    ensures var syms := all[i + WindowSize..j];
            SampleRun(r, Pins(r.pin, syms)) == Run(r.(pin := LastPin(r.pin, syms), window := all[j - WindowSize..j]), [])
    decreases j - i
  {
    var syms := all[i + WindowSize..j];
    if j > i + WindowSize {
      QuietFirst(r, all, i, j);
      var t := Toggle(r.pin, syms[0]);
      assert syms[1..] == all[i + 1 + WindowSize..j];
      QuietRun(r.(pin := t, window := all[i + 1..i + 1 + WindowSize]), all, i + 1, j);
    }
  }

  /** The symbol that completes a block whose head is a preamble brings
      that preamble to the head of the window: the receiver reports the
      block and counts it if it is a Y. */
  lemma Arrival(q: Rx, e: string, p: Preamble)
    requires !q.done && |q.window| == WindowSize && |e| == WindowSize
    requires e[63] == '0' || e[63] == '1'
    requires q.window[1..] == e[..63] && e[..8] == Pattern(p)
    ensures var t := Toggle(q.pin, e[63]);
            var count := q.frameCount + (if p == Y then 1 else 0);
            Sample(q, t) == Step(q.(pin := t, window := e, frameCount := count, done := count >= q.target),
                                 Some(Report(q.frameCount, Letter(p), e)))
  {
    var t := Toggle(q.pin, e[63]);
    var s := Sample(q, t);
    assert BitChar(t != q.pin) == e[63];
    assert s.rx.window == e by {
      assert e == e[..63] + [e[63]];
    }
    SampleReports(q, t);
    PreamblesDistinct(p, Y);
  }

  /** The first 63 symbols of a 64-symbol block pass silently when no
      preamble starts inside the window's sweep from the previous block. */
  lemma QuietStretch(r: Rx, e: string)
    requires !r.done && r.frameCount < r.target
    requires |r.window| == WindowSize && |e| == WindowSize
    requires forall k :: 0 <= k < 63 ==> e[k] == '0' || e[k] == '1'
    requires forall m :: 0 < m <= 63 ==> !PreambleAt(r.window + e, m)
    ensures SampleRun(r, Pins(r.pin, e[..63])) ==
              Run(r.(pin := LastPin(r.pin, e[..63]), window := r.window[63..] + e[..63]), [])
  {
    Slices(r.window, e);
    QuietRun(r, r.window + e, 0, 127);
  }

  /** The slices of two 64-symbol blocks back to back that QuietStretch uses. */
  lemma Slices(w: string, e: string)
    requires |w| == WindowSize && |e| == WindowSize
    ensures (w + e)[..WindowSize] == w && (w + e)[WindowSize..127] == e[..63]
    ensures (w + e)[63..127] == w[63..] + e[..63]
  {
    var all := w + e;
    forall k | 0 <= k < WindowSize
      ensures all[63..127][k] == (w[63..] + e[..63])[k]
    {
      if k == 0 {
        assert all[63] == w[63];
      } else {
        assert all[63 + k] == e[k - 1];
      }
    }
  }

  /** The last symbol of such a block prints its report. */
  lemma LastSymbol(q: Rx, e: string, p: Preamble)
    requires !q.done && |q.window| == WindowSize && |e| == WindowSize
    requires e[63] == '0' || e[63] == '1'
    requires q.window[1..] == e[..63] && e[..8] == Pattern(p)
    ensures var count := q.frameCount + (if p == Y then 1 else 0);
            SampleRun(q, Pins(q.pin, e[63..])) ==
              Run(q.(pin := LastPin(q.pin, e[63..]), window := e, frameCount := count, done := count >= q.target),
                  [Report(q.frameCount, Letter(p), e)])
  {
    var t := Toggle(q.pin, e[63]);
    assert Pins(q.pin, e[63..]) == [t] && LastPin(q.pin, e[63..]) == t;
    Arrival(q, e, p);
    SampleRunCons(q, [t]);
  }

  /** Two runs back to back. */
  lemma Chain(r: Rx, a: seq<int>, b: seq<int>, q: Rx, linesA: seq<string>, x: Run)
    requires SampleRun(r, a) == Run(q, linesA) && SampleRun(q, b) == x
    ensures SampleRun(r, a + b) == Run(x.rx, linesA + x.lines)
  {
    SampleRunAppend(r, a, b);
  }

  /** A 64-symbol block whose first 63 symbols pass silently and whose last
      one prints a line is, as a whole, received as that line. */
  lemma Combine(r: Rx, e: string, line: string, count: nat)
    requires |r.window| == WindowSize && |e| == WindowSize
    requires var quiet := e[..63];
             var q := r.(pin := LastPin(r.pin, quiet), window := r.window[63..] + quiet);
             && SampleRun(r, Pins(r.pin, quiet)) == Run(q, [])
             && SampleRun(q, Pins(q.pin, e[63..])) ==
                  Run(q.(pin := LastPin(q.pin, e[63..]), window := e, frameCount := count, done := count >= r.target), [line])
    ensures var x := SampleRun(r, Pins(r.pin, e));
            && x.lines == [line]
            && x.rx == r.(pin := LastPin(r.pin, e), window := e, frameCount := count, done := count >= r.target)
  {
    var quiet, last := e[..63], e[63..];
    var q := r.(pin := LastPin(r.pin, quiet), window := r.window[63..] + quiet);
    PinsSplit(r.pin, e, 63);
    Chain(r, Pins(r.pin, quiet), Pins(q.pin, last), q, [], SampleRun(q, Pins(q.pin, last)));
  }

  /** A 64-symbol block that starts with a preamble and holds no other one,
      even straddling the previous block, is received as one report. */
  lemma OneBlock(r: Rx, e: string, p: Preamble)
    requires !r.done && r.frameCount < r.target
    requires |r.window| == WindowSize && |e| == WindowSize && IsBinary(e)
    requires forall m :: 0 < m <= 63 ==> !PreambleAt(r.window + e, m)
    requires e[..8] == Pattern(p)
    ensures var x := SampleRun(r, Pins(r.pin, e));
            var count := r.frameCount + (if p == Y then 1 else 0);
            && x.lines == [Report(r.frameCount, Letter(p), e)]
            && x.rx == r.(pin := LastPin(r.pin, e), window := e, frameCount := count, done := count >= r.target)
  {
    QuietStretch(r, e);
    var q := r.(pin := LastPin(r.pin, e[..63]), window := r.window[63..] + e[..63]);
    assert q.window[1..] == e[..63];
    LastSymbol(q, e, p);
    Combine(r, e, Report(r.frameCount, Letter(p), e), r.frameCount + (if p == Y then 1 else 0));
  }

  /** One subframe sent after another: the receiver stays silent for the
      first 63 half cells and prints the subframe's line on the 64th, when
      the new preamble reaches the head of the window. */
  lemma OneSubframe(r: Rx, p0: Preamble, g0: string, p: Preamble, f: string)
    requires !r.done && r.frameCount < r.target
    requires r.window == Encode(p0, g0) && |g0| == 28
    requires |f| == 28 && IsBinary(f)
    ensures var e := Encode(p, f);
            var x := SampleRun(r, Pins(r.pin, e));
            var count := r.frameCount + (if p == Y then 1 else 0);
            && x.lines == [Render(Subframe(r.frameCount, p, f))]
            && x.rx == r.(pin := LastPin(r.pin, e), window := e, frameCount := count, done := count >= r.target)
  {
    var e := Encode(p, f);
    EncodeBinary(p, f);
    forall m | 0 < m <= 63
      ensures !PreambleAt(r.window + e, m)
    {
      NoFalseLock(p0, g0, p, f, m);
    }
    OneBlock(r, e, p);
    ReportIsRender(r.frameCount, p, f);
  }

  /** The number of second-channel subframes in a stream. */
  function YCount(sfs: seq<Subframe>): (n: nat)
    ensures n <= |sfs|
  {
    if |sfs| == 0 then 0 else (if sfs[0].preamble == Y then 1 else 0) + YCount(sfs[1..])
  }

  lemma {:induction false} YCountAppend(a: seq<Subframe>, b: seq<Subframe>)
    ensures YCount(a + b) == YCount(a) + YCount(b)
  {
    if |a| == 0 {
      assert a + b == b;
    } else {
      assert (a + b)[1..] == a[1..] + b;
      YCountAppend(a[1..], b);
    }
  }

  /** The lines of a sequence of subframes, in order. */
  function RenderAll(sfs: seq<Subframe>): (lines: seq<string>)
    ensures |lines| == |sfs| && forall k :: 0 <= k < |sfs| ==> lines[k] == Render(sfs[k])
  {
    if |sfs| == 0 then [] else [Render(sfs[0])] + RenderAll(sfs[1..])
  }

  /** A stream the receiver can follow from frame count `count` up to a
      target: 28-bit binary fields, each subframe numbered by the Y preambles
      before it, and the target not reached before the last subframe. */
  ghost predicate Decodable(sfs: seq<Subframe>, count: nat, target: int)
    decreases |sfs|
  {
    |sfs| > 0 ==>
      && |sfs[0].field| == 28 && IsBinary(sfs[0].field)
      && count < target && sfs[0].frame == count
      && Decodable(sfs[1..], count + (if sfs[0].preamble == Y then 1 else 0), target)
  }

  /** The first subframe of a stream is decoded on its own, and the receiver
      is then locked on it for the rest. */
  lemma FirstSubframe(r: Rx, p0: Preamble, g0: string, sfs: seq<Subframe>)
    requires !r.done && r.window == Encode(p0, g0) && |g0| == 28
    requires |sfs| > 0 && |sfs[0].field| == 28 && IsBinary(sfs[0].field)
    requires r.frameCount < r.target && sfs[0].frame == r.frameCount
    ensures var sf := sfs[0];
            var e := Encode(sf.preamble, sf.field);
            var r1 := SampleRun(r, Pins(r.pin, e)).rx;
            var y := SampleRun(r1, Pins(r1.pin, Transmit(sfs[1..])));
            && SampleRun(r, Pins(r.pin, Transmit(sfs))) == Run(y.rx, [Render(sf)] + y.lines)
            && r1.window == e && r1.target == r.target
            && r1.frameCount == r.frameCount + (if sf.preamble == Y then 1 else 0)
            && (r1.done <==> r1.frameCount >= r.target)
  {
    var sf, rest := sfs[0], sfs[1..];
    var e := Encode(sf.preamble, sf.field);
    assert Transmit(sfs) == e + Transmit(rest);
    PinsAppend(r.pin, e, Transmit(rest));
    assert sf == Subframe(r.frameCount, sf.preamble, sf.field);
    OneSubframe(r, p0, g0, sf.preamble, sf.field);
    var r1 := SampleRun(r, Pins(r.pin, e)).rx;
    Chain(r, Pins(r.pin, e), Pins(r1.pin, Transmit(rest)), r1, [Render(sf)],
          SampleRun(r1, Pins(r1.pin, Transmit(rest))));
  }

  /** A locked receiver prints one line per subframe of the stream, numbered
      by the Y preambles seen before it, as long as it has not reached its
      target before the last subframe. */
  lemma {:induction false} StreamDecodes(r: Rx, p0: Preamble, g0: string, sfs: seq<Subframe>)
    requires !r.done && r.window == Encode(p0, g0) && |g0| == 28
    requires Decodable(sfs, r.frameCount, r.target)
    ensures var x := SampleRun(r, Pins(r.pin, Transmit(sfs)));
            && x.lines == RenderAll(sfs)
            && x.rx.frameCount == r.frameCount + YCount(sfs)
            && (|sfs| > 0 ==> (x.rx.done <==> x.rx.frameCount >= r.target))
    decreases |sfs|
  {
    if |sfs| == 0 {
      assert Pins(r.pin, Transmit(sfs)) == [];
    } else {
      var sf, rest := sfs[0], sfs[1..];
      FirstSubframe(r, p0, g0, sfs);
      var r1 := SampleRun(r, Pins(r.pin, Encode(sf.preamble, sf.field))).rx;
      if |rest| == 0 {
        assert Pins(r1.pin, Transmit(rest)) == [];
        assert SampleRun(r1, []) == Run(r1, []);
      } else {
        var c1 := r.frameCount + (if sf.preamble == Y then 1 else 0);
        assert Decodable(rest, c1, r.target);
        assert c1 < r.target;
        StreamDecodes(r1, sf.preamble, sf.field, rest);
      }
    }
  }

  /** Second-channel subframes are the odd ones of a two-channel stream, so
      the count before subframe k is k / 2. */
  lemma {:induction false} YCountOfStereo(sfs: seq<Subframe>, k: nat)
    requires k <= |sfs|
    requires forall i :: 0 <= i < |sfs| ==> (sfs[i].preamble == Y <==> i % 2 == 1)
    ensures YCount(sfs[..k]) == k / 2
  {
    if k > 0 {
      YCountOfStereo(sfs, k - 1);
      assert sfs[..k] == sfs[..k - 1] + [sfs[k - 1]];
      YCountAppend(sfs[..k - 1], [sfs[k - 1]]);
    }
  }

  /** The expected stereo stream can be followed by a receiver that starts
      counting at 0 and targets the number of frames, and holds one Y
      preamble per frame. */
  lemma StereoDecodable(fr: Frames)
    requires Transmittable(fr) && |fr.samples| == 2
    ensures var n := |fr.samples[0]|;
            var sfs := Subframes(fr, n);
            Decodable(sfs, 0, n) && YCount(sfs) == n
  {
    var n := |fr.samples[0]|;
    var sfs := Subframes(fr, n);
    forall k | 0 <= k < |sfs|
      ensures |sfs[k].field| == 28 && IsBinary(sfs[k].field)
      ensures sfs[k].preamble == Y <==> k % 2 == 1
      ensures sfs[k].frame == k / 2
    {
      FieldBinary(fr, k % 2, k / 2);
    }
    StereoSuffix(sfs, 0, n);
    YCountOfStereo(sfs, |sfs|);
    assert sfs[..|sfs|] == sfs && sfs[0..] == sfs;
  }

  /** From subframe k on, a stereo stream numbered by frame is decodable
      starting at frame count k / 2 with a target of one count per frame. */
  lemma {:induction false} StereoSuffix(sfs: seq<Subframe>, k: nat, n: nat)
    requires |sfs| == 2 * n && k <= |sfs|
    requires forall i :: 0 <= i < |sfs| ==>
               && |sfs[i].field| == 28 && IsBinary(sfs[i].field)
               && (sfs[i].preamble == Y <==> i % 2 == 1) && sfs[i].frame == i / 2
    ensures Decodable(sfs[k..], k / 2, n)
    decreases |sfs| - k
  {
    if k < |sfs| {
      StereoSuffix(sfs, k + 1, n);
      assert sfs[k..][1..] == sfs[k + 1..];
      assert sfs[k..][0] == sfs[k];
    }
  }

  /** expect() lists the lines of its subframes in order. */
  lemma ExpectIsRenderAll(fr: Frames)
    requires WellFormed(fr)
    ensures Expect(fr) == RenderAll(Subframes(fr, |fr.samples[0]|))
  {
  }

  /** The end-to-end promise of the tests: a receiver already locked on the
      line, started with a fresh frame count, a divider counter of 0 and a
      target of as many frames as the expectation holds, that is clocked
      `divider` times per half cell of the biphase-mark encoding of the
      expected stereo subframes, prints exactly the expected lines, and
      exits right after the last one. */
  lemma ExpectRoundTrip(fr: Frames, r: Rx, p0: Preamble, g0: string)
    requires Transmittable(fr) && |fr.samples| == 2
    requires Counting(r) && r.div == 0 && !r.done
    requires r.window == Encode(p0, g0) && |g0| == 28
    requires r.frameCount == 0 && r.target == |fr.samples[0]|
    ensures var n := |fr.samples[0]|;
            var x := TickRun(Sampling, r, Hold(Pins(r.pin, Transmit(Subframes(fr, n))), r.divider));
            && x.lines == Expect(fr)
            && (n > 0 ==> x.rx.done)
  {
    StereoDecodable(fr);
    var sfs := Subframes(fr, |fr.samples[0]|);
    HoldRun(r, Pins(r.pin, Transmit(sfs)));
    StreamDecodes(r, p0, g0, sfs);
    ExpectIsRenderAll(fr);
  }
}
