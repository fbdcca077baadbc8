# S/PDIF test model in Dafny

This project models the reference model of the S/PDIF line format that the
`lib_spdif` tests use (`tests/spdif_test_utils.py`). The modelled parts are:

- the audio generators of `Audio_func`, and the sample loop of `Frames.__init__`.
  This loop renders each sample as a 24-bit string, least significant bit first.
- the consumer channel-status string, built by `_get_byte_0` … `_get_byte_extra`.
  It has five bytes laid out as in IEC 60958-3 and 19 zero bytes. Unsupported
  options raise an error.
- `Frames.expect` and `sub_frame_string`. They assemble each subframe from
  sample, validity, user and channel-status bits plus even parity. They pick
  preamble Z, X or Y by position and render one text line per subframe.
- the receiver `Spdif_rx`:
  - A clock divider samples the line once every `divider` ticks.
  - A 64-symbol window of transition symbols recognises the preambles
    `PREAMBLE_Z/X/Y` and prints the data and cell-boundary columns of each subframe.
  - It counts second-channel (Y) preambles and ends the run at the requested count.
- the clock's half-period accumulator `Clock._get_next_interval` and its
  frequency guard.

The centrepiece is a loopback, `RoundTrip.ExpectRoundTrip`. Encode the stereo
subframes `expect()` describes in biphase-mark form (IEC 60958-1). Hold each half
cell for `divider` clock ticks and feed it to the receiver. The receiver then
prints exactly the lines `expect()` returns, and ends the run after the last one.

Modules, one per file:

| module | contents |
|---|---|
| `Results` | error kinds; `Result` and `Option` |
| `Bits` | bit strings; the Python formatting the model uses |
| `Clock` | the clock guard and the interval accumulator |
| `Audio` | audio policies; the rendering of samples |
| `ChannelStatus` | bytes 0-4, the extra bytes, the 192-bit status string |
| `Frames` | `Frames.__init__`, subframes, `expect()` |
| `Biphase` | the preambles; biphase-mark symbols and line levels; why data never looks like a preamble |
| `Receiver` | `Spdif_rx.__init__` and `on_high` as pure step functions, and runs of them |
| `RoundTrip` | the loopback proof |

Modelling choices:

- **Raised errors.** Every exception the source raises explicitly (`raise` at lines 18, 152, 154, 181,
  185, 207, 215 and 248) is an `Err` of `Results.Error`. The implicit errors are excluded by
  preconditions instead, as "## Left out" records: TypeError at line 120, IndexError at lines
  218 and 221, ZeroDivisionError at lines 43, 55 and 72.
- **Ending the run.** `os._exit` is modelled as the receiver's `done` flag.
- **The sampled pin.** The level sampled at each tick is an input of the step function. It may be
  any integer: `pin ^ self._pin` is non-zero exactly when the two levels differ.
- **Integers.** They are unbounded. The 24-bit mask `((1 << 24) - 1) & v` is
  written out as the Euclidean remainder `v % 2^24`. This equals Python's
  two's-complement `&` for negative values too.

## Model

| member | source | states |
|---|---|---|
| Bits.FormatBin | tests/spdif_test_utils.py:159-160 | `"{:0wb}"`: a binary string whose value is n, at least w characters and at least one long, exactly w when n fits in w bits, and otherwise starting with '1' (no padding beyond the digits) |
| Bits.Decimal | tests/spdif_test_utils.py:236 | `str(n)`: decimal digits whose value is n, without a leading zero |
| Bits.AsciiLower | tests/spdif_test_utils.py:240 | lower-casing changes exactly the letters A-Z, each to its lower-case form, and keeps the length |
| Bits.Stride2 | tests/spdif_test_utils.py:64 | `s[start::2]` holds exactly the characters at start, start + 2, …, and there are ceil((len - start) / 2) of them |
| Clock.NewClock | tests/spdif_test_utils.py:15-18 | a clock is built exactly when the frequency is at most 5·10^14 Hz, with twice the frequency and no carry; otherwise the error is "frequency too high" |
| Clock.NextInterval | tests/spdif_test_utils.py:42-45 | interval · double_freq + new carry = 10^15 + old carry, the new carry is a proper remainder, and the interval is the ideal half period rounded down or up by one |
| Clock.IntervalsAccumulate | tests/spdif_test_utils.py:42-45 | after n intervals, (sum of intervals) · double_freq + carry = n · 10^15 + initial carry, with 0 <= carry < double_freq |
| Receiver.NewReceiver | tests/spdif_test_utils.py:48-56 | the receiver starts at level 0 with an empty window, a count of 0 and the given target. Its divider is the floor of mclk / (rate · 128). A clock that is too fast is rejected |
| Receiver.Head | tests/spdif_test_utils.py:63 | `in_buff[:8]` is the longest prefix of the window of at most eight symbols |
| Receiver.Report | tests/spdif_test_utils.py:64 | the printed line has the format of `sub_frame_string`: the count, the letter, the mid-cell symbols `in_buff[9::2]` as the subframe, and the cell-boundary symbols `in_buff[8::2]` and a newline as the transitions |
| Receiver.Shift | tests/spdif_test_utils.py:61 | the window keeps its newest 63 symbols, or all of them if it has fewer than 64, and ends with the new symbol |
| Receiver.Sample | tests/spdif_test_utils.py:59-71 | a sample appends '1' iff the level changed and stores the new level. It raises the count by at most one and ends the run exactly when the count reaches the target. The divider and the clock are untouched |
| Receiver.SampleReports | tests/spdif_test_utils.py:63-69 | a line is printed iff the oldest eight symbols are Z, X or Y. The line carries the count before the sample, that preamble's letter and the window. The count rises on Y only |
| Receiver.Advance | tests/spdif_test_utils.py:72 | the divider counter advances to (div + 1) mod divider |
| Receiver.OnHigh | tests/spdif_test_utils.py:58-72 | a tick samples iff the counter is 0 and otherwise changes nothing but the counter. The counter stays in [0, divider). The tick that ends the run leaves the counter alone |
| Receiver.IdleTicks | tests/spdif_test_utils.py:59-72 | from counter c >= 1, the next divider - c ticks print nothing, ignore the pin and bring the counter back to 0 |
| Receiver.GroupRun | tests/spdif_test_utils.py:58-72 | from counter 0, a level held for one divider period is sampled exactly once |
| Receiver.HoldRunWith | tests/spdif_test_utils.py:58-72 | holding every level for `divider` ticks gives the same lines and final receiver as sampling every level once, for any sampling step |
| Receiver.HoldRun | tests/spdif_test_utils.py:58-72 | the same for on_high's own sampling step |
| Biphase.PreamblesDistinct | tests/spdif_test_utils.py:7-9 | the three preambles differ, and each has a transition followed by two half cells without one |
| Biphase.RecognizeSpec | tests/spdif_test_utils.py:63-68 | the Z/X/Y test chain recognises a head exactly when it is a preamble, and then as the preamble it spells |
| Biphase.Pins | tests/spdif_test_utils.py:61 | the level stream for a symbol stream changes level exactly at the '1' symbols, so sampling it gives the symbols back |
| Biphase.DataIsNotPreamble | tests/spdif_test_utils.py:7-9 | no eight consecutive half cells of biphase-mark data form a preamble |
| Biphase.NoFalseLock | tests/spdif_test_utils.py:63-68 | in two encoded subframes back to back, no window starting strictly inside the first subframe has a preamble at its head |
| Audio.ParsePolicy | tests/spdif_test_utils.py:239-248 | a policy is chosen iff the type, case-insensitively, is none, fixed or ramp, and then it is the policy that name selects. Any other type is rejected as an unsupported audio type |
| Audio.Next | tests/spdif_test_utils.py:251-258 | none gives None; fixed gives its value whatever came before; ramp adds its step to a previous value and keeps None |
| Audio.NextIsValueAt | tests/spdif_test_utils.py:251-258 | for fixed and ramp, one call of the generator takes the k-th value of the reference sequence (0, then the fixed value, or k · step) to the (k + 1)-th |
| Audio.SampleBits | tests/spdif_test_utils.py:120 | a rendered sample is 24 binary characters, read least significant bit first, whose value is the sample mod 2^24 |
| Audio.ChannelSamples | tests/spdif_test_utils.py:115-121 | a channel has n samples. Sample k renders the k-th generator value, so sample 0 is 24 zeros, a ramp's sample k has value k · step mod 2^24, and a fixed channel repeats its value from sample 1 on |
| ChannelStatus.Byte0 | tests/spdif_test_utils.py:137-144 | byte 0 holds: the pro flag, the inverted audio flag, the inverted copyright flag, the pre-emphasis bits unchanged, and the mode in binary: two digits for modes 0-3, otherwise the mode's digits from a leading '1' |
| ChannelStatus.Byte1 | tests/spdif_test_utils.py:145-156 | byte 1 exists iff the category is "digital/digital converters" / "other". It is then 010, 1111 and the L bit |
| ChannelStatus.Byte2 | tests/spdif_test_utils.py:157-161 | byte 2 is two binary parts read least significant bit first, whose values are the source and channel numbers. Each part is 4 bits, or longer with a '1' last when the number needs more; numbers below 16 give exactly 8 bits |
| ChannelStatus.Byte3 | tests/spdif_test_utils.py:162-187 | byte 3 exists iff the rate is in the table and the accuracy is level II. It is then the rate's code and 0000. An unknown rate is reported before a bad accuracy |
| ChannelStatus.Byte4 | tests/spdif_test_utils.py:188-208 | byte 4 exists iff the original rate is 0. It is then '1' iff depth > 20, the first-match depth code, and 0000 |
| ChannelStatus.ExtraBytes | tests/spdif_test_utils.py:209-216 | bytes 5-23 are 152 zeros when no extra data is given; extra data is rejected |
| ChannelStatus.Block | tests/spdif_test_utils.py:128-135 | a status string exists iff every option is supported. The first unsupported option, in byte order, is the error |
| ChannelStatus.BlockLayout | tests/spdif_test_utils.py:128-135 | with 3 pre-emphasis bits, mode <= 3 and channel <= 15, the status string is exactly 192 bits. Every field sits at its IEC 60958-3 position, followed by 19 zero bytes |
| ChannelStatus.ErrorIgnoresChannel | tests/spdif_test_utils.py:128-135 | which option is rejected does not depend on the channel number |
| Frames.AllSamples | tests/spdif_test_utils.py:114-121 | the first loop fails iff some channel's type is unsupported. Otherwise channel i holds n samples, sample k rendering the k-th value of its policy |
| Frames.CollectBlocks | tests/spdif_test_utils.py:125-135 | the status loop succeeds iff every channel's string exists, and then holds channel c's string at index c - 1. A failure is the error of the first failing channel |
| Frames.AllStatus | tests/spdif_test_utils.py:125-135 | the status strings of channels 1..count exist iff count is 0 or the options are supported. A failure is channel 1's error |
| Frames.NewFrames | tests/spdif_test_utils.py:111-135 | an unsupported audio type is reported before any status error. A built value holds every channel's samples, the flags "0" and its status string. With one or two channels and binary pre-emphasis it can be transmitted |
| Frames.PreambleFor | tests/spdif_test_utils.py:223-226 | the preamble is Z iff channel 0 and frame mod 192 is 0; X for other frames of channel 0; Y for channel 1 |
| Frames.WithParity | tests/spdif_test_utils.py:231 | the parity bit extends the body so that the number of '1's is even |
| Frames.Field | tests/spdif_test_utils.py:227-231 | a field is the sample, then the cyclic validity, user and status characters for the frame, then parity; it has an even number of '1's |
| Frames.FieldBinary | tests/spdif_test_utils.py:227-231 | a field of transmittable frames is 28 binary characters |
| Frames.Subframes | tests/spdif_test_utils.py:221-232 | subframes run frame-major and then by channel: entry k is frame k / channels, channel k mod channels |
| Frames.SubFrameString | tests/spdif_test_utils.py:235-236 | the line is the sample number's decimal digits (whose value is the sample number), '[', the preamble, "] - ", the subframe, a space and the transitions, at those positions |
| Frames.SubFrameStringFields | tests/spdif_test_utils.py:235-236 | a line determines its sample number, preamble, subframe and transitions, given the lengths of preamble and subframe |
| Frames.Expect | tests/spdif_test_utils.py:217-233 | expect() gives frames × channels lines. Line k renders frame k / channels and channel k mod channels, with its preamble letter, its field and 28 transition ones |
| RoundTrip.ReportIsRender | tests/spdif_test_utils.py:64-68 | the receiver's line for a window holding an encoded subframe equals `sub_frame_string` for it: the mid-cell symbols are the field and the cell boundaries are 28 ones |
| RoundTrip.QuietRun | tests/spdif_test_utils.py:61-68 | symbols that bring no preamble to the head of the window print nothing, slide the window along and move the level |
| RoundTrip.OneSubframe | tests/spdif_test_utils.py:58-71 | after one subframe, the next one prints exactly its own line on its 64th half cell, leaving the window on it. The count rises on Y only |
| RoundTrip.StreamDecodes | tests/spdif_test_utils.py:58-71 | a locked receiver prints one line per subframe, in order. It counts the Y preambles and stops exactly when the count reaches the target |
| RoundTrip.StereoDecodable | tests/spdif_test_utils.py:217-232 | in the expected stereo stream, the count before subframe k is k / 2 = its frame number, and there is one Y per frame |
| RoundTrip.ExpectRoundTrip | tests/spdif_test_utils.py:58-72 | receiving the biphase-mark encoding of expect()'s stereo subframes prints exactly expect()'s lines. A locked receiver does this when clocked `divider` times per half cell, and ends the run after the last line |

## Left out

- **Not modelled: clock and port plumbing.** This covers `Clock.run`, `wait_until`, the port access and
  the process exit (tests/spdif_test_utils.py:21-33, 60, 71). These are simulator
  timing and process control. The sampled level is an input of the step function, and the exit is the `done` flag.
- **Not modelled: the transmitter stub.** `Spdif_tx` (tests/spdif_test_utils.py:74-83) is an empty stub.
- **Not modelled: the sources branch.** The `sources` branch of `Frames.__init__` (line 112-113) produces no samples.
  `channels=None` gives the same result as an empty channel list, which the model covers.
- **Other files.** `lib_spdif/api/spdif.h` declares hardware components only. The test
  scripts under `tests/` drive the simulator.
- **The biphase-mark encoder.** It does not exist in the source; the hardware
  transmitter plays that role. `Biphase.Encode` builds it after IEC 60958-1:
  a preamble, then "1" and the bit for every cell.
- Receiver.NewReceiver: requires positive frequencies. For them the source's float division
  `int(mclk / (rate · 128))` equals integer division for every accepted clock, so no float is
  modelled. A rate of 0 raises ZeroDivisionError in the constructor itself (line 55). A negative
  master clock gives a divider truncated toward zero. A divider of 0 makes the first tick raise at
  line 72. A negative divider runs, because Python's `%` takes the sign of the divisor.
  These cases are not modelled.
- Receiver.OnHigh: requires `Receiver.Counting`, a divider of at least 1. The crashing divider of 0
  and the negative dividers above are not modelled.
- Clock.NextInterval: requires a positive frequency. A frequency of 0 raises ZeroDivisionError at
  line 43. A negative one, which the guard at line 15 lets through, gives negative intervals under
  Python's floor division. Neither is modelled; the receiver's clock is positive.
- Frames.NewFrames: requires `Frames.Renderable`. A "none" channel with two or more samples
  makes line 120 fail on None, unless an earlier channel's type has already been rejected.
  More than two channels break `expect()`'s preamble table at line 218, so
  `Frames.WellFormed` asks for one or two channels.
- Frames.Expect: requires `Frames.WellFormed`, which also excludes zero channels. For those
  `expect()` raises IndexError on `self._samples[0]` at line 221; that error is not modelled.
- Audio.ParsePolicy: `str.lower()` is modelled on ASCII letters only. Python also lower-cases
  other letters, but none of them lowers to a letter of "none", "fixed" or "ramp".
  The accepted types are therefore the same.
- ChannelStatus.Byte0: the mode is a natural number. The source would render a negative mode with a minus sign.
- ChannelStatus.Byte4: a bit depth of 20 gets code 100, from the first matching pair, as the source does.
  The source's own comment at line 189 marks this case as unsettled.
- Frames.Expect: returns the list of lines; the source concatenates them into one string.
  Concatenating the list gives the source's string for every input. For a binary pre-emphasis each
  line ends in its only newline, so the string also determines the list.
- RoundTrip.ExpectRoundTrip: holds for two channels only. A one-channel stream has no Y
  preamble, so the receiver's count stays 0 and it prints `0[…]` for every subframe. `expect()`
  numbers the line of frame j as j, so the two outputs differ from frame 1 on, whatever the target.
- RoundTrip.ExpectRoundTrip: the receiver starts already locked: its window holds an earlier encoded subframe.
  A fresh receiver's window is shorter than 64 symbols for its first 63 samples.
  During those samples it prints lines cut short whenever the window starts at a preamble.
  Those start-up lines are not modelled.
