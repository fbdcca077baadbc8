/** Channel-status encoding of the test model: five bytes built from the
    configuration, in the consumer layout of IEC 60958-3 (bit 0 of byte 0 is
    transmitted first), followed by 19 zero bytes, 192 bits in all. Options
    the model does not support are rejected, never coerced. */
module ChannelStatus {
  import opened Results
  import opened Bits

  /** Keyword arguments of Frames.__init__ that shape the channel status.
      `extra` stands for the optional list of bytes 5-23. */
  datatype Config = Config(
    pro: bool, digitalAudio: bool, copyright: bool, preEmphasis: string, mode: nat,
    categoryCode: string, category: string, lBit: bool,
    samFreq: int, clockAccuracy: string,
    bitDepth: int, originalSamFreq: int,
    extra: Option<seq<int>>)

  /** The defaults of Frames.__init__. */
  const DefaultConfig: Config := Config(
    false, true, false, "000", 0,
    "digital/digital converters", "other", false,
    44100, "level II",
    24, 0,
    None)

  const BlockBits: nat := 192

  /** Sample-rate codes of byte 3 (bits 24-27, in transmission order). */
  const RateCodes: map<int, string> := map[
    22050 := "0010", 44100 := "0000", 88200 := "0001", 176400 := "0011",
    24000 := "0110", 48000 := "0100", 96000 := "0101", 192000 := "0111"]

  /** Word-length codes of byte 4 in the order the source tests them: the first
      entry whose pair holds the depth gives the code. */
  const DepthCodes: seq<(int, int, string)> := [
    (20, 16, "100"), (22, 18, "010"), (23, 19, "001"), (24, 20, "101"), (21, 17, "011")]

  /** First-match lookup in DepthCodes from entry i on; "000" when none matches. */
  function DepthCode(depth: int, i: nat): (r: string)
    requires i <= |DepthCodes|
    ensures |r| == 3 && IsBinary(r)
    decreases |DepthCodes| - i
  {
    if i == |DepthCodes| then "000"
    else if depth == DepthCodes[i].0 || depth == DepthCodes[i].1 then DepthCodes[i].2
    else DepthCode(depth, i + 1)
  }

  /** Byte 0: professional flag, the inverted audio and copyright flags, the
      pre-emphasis bits as given, then the mode in binary. */
  function Byte0(pro: bool, digitalAudio: bool, copyright: bool, preEmphasis: string, mode: nat): (r: string)
    ensures |r| >= 5 + |preEmphasis|
    ensures mode < 4 ==> |r| == 5 + |preEmphasis|
    ensures r[0] == BitChar(pro) && r[1] == BitChar(!digitalAudio) && r[2] == BitChar(!copyright)
    ensures r[3..3 + |preEmphasis|] == preEmphasis
    ensures IsBinary(r[3 + |preEmphasis|..]) && MsbValue(r[3 + |preEmphasis|..]) == mode
    ensures |r| > 5 + |preEmphasis| ==> r[3 + |preEmphasis|] == '1'
    ensures IsBinary(preEmphasis) ==> IsBinary(r)
  {
    var m := FormatBin(mode, 2);
    var r := [BitChar(pro), BitChar(!digitalAudio), BitChar(!copyright)] + preEmphasis + m;
    assert r[3 + |preEmphasis|..] == m && r[3 + |preEmphasis|] == m[0];
    r
  }

  /** Byte 1: only category code "digital/digital converters" with category
      "other" is supported (code 010, category 1111), then the L bit. */
  function Byte1(categoryCode: string, category: string, lBit: bool): (r: Result<string>)
    ensures r.Ok? <==> categoryCode == "digital/digital converters" && category == "other"
    ensures r.Err? ==> r.error == UnsupportedCategory
    ensures r.Ok? ==> |r.value| == 8 && IsBinary(r.value)
    ensures r.Ok? ==> r.value[..3] == "010" && r.value[3..7] == "1111" && r.value[7] == BitChar(lBit)
  {
    if categoryCode == "digital/digital converters" then
      if category == "other" then Ok("010" + "1111" + [BitChar(lBit)])
      else Err(UnsupportedCategory)
    else Err(UnsupportedCategory)
  }

  /** Byte 2: source number and channel number, each a 4-bit nibble sent least
      significant bit first. A number of 16 or more takes as many bits as its
      binary form needs, the last of them a '1'. */
  function Byte2(source: nat, channel: nat): (r: string)
    ensures IsBinary(r)
    ensures var k := |FormatBin(source, 4)|;
            && 4 <= k && k + 4 <= |r|
            && LsbValue(r[..k]) == source && LsbValue(r[k..]) == channel
            && (k > 4 ==> r[k - 1] == '1')
            && (|r| > k + 4 ==> r[|r| - 1] == '1')
    ensures source < 16 && channel < 16 ==>
              |r| == 8 && LsbValue(r[..4]) == source && LsbValue(r[4..]) == channel
  {
    var s := FormatBin(source, 4);
    var c := FormatBin(channel, 4);
    LsbValueOfReverse(s);
    LsbValueOfReverse(c);
    var r := Reverse(s) + Reverse(c);
    assert r[..|s|] == Reverse(s) && r[|s|..] == Reverse(c);
    assert r[|s| - 1] == s[0] && r[|r| - 1] == c[0];
    BinaryAppend(Reverse(s), Reverse(c));
    r
  }

  /** Byte 3: the sample-rate code from the table, clock accuracy (only
      "level II", code 00), two reserved zero bits. The rate is checked first. */
  function Byte3(samFreq: int, clockAccuracy: string): (r: Result<string>)
    ensures r.Ok? <==> samFreq in RateCodes && clockAccuracy == "level II"
    ensures samFreq !in RateCodes ==> r == Err(UnsupportedSampleRate)
    ensures samFreq in RateCodes && clockAccuracy != "level II" ==> r == Err(UnsupportedClockAccuracy)
    ensures r.Ok? ==> r.value == RateCodes[samFreq] + "0000"
    ensures r.Ok? ==> |r.value| == 8 && IsBinary(r.value)
  {
    var code :=
      if samFreq == 22050 then Some("0010")
      else if samFreq == 44100 then Some("0000")
      else if samFreq == 88200 then Some("0001")
      else if samFreq == 176400 then Some("0011")
      else if samFreq == 24000 then Some("0110")
      else if samFreq == 48000 then Some("0100")
      else if samFreq == 96000 then Some("0101")
      else if samFreq == 192000 then Some("0111")
      else None;
    if code.None? then Err(UnsupportedSampleRate)
    else if clockAccuracy == "level II" then Ok(code.value + "00" + "00")
    else Err(UnsupportedClockAccuracy)
  }

  /** Byte 4: the "maximum 24 bits" flag (depth above 20), the word-length
      code, then the original sample rate (only 0, "unknown", is supported). */
  function Byte4(bitDepth: int, originalSamFreq: int): (r: Result<string>)
    ensures r.Ok? <==> originalSamFreq == 0
    ensures r.Err? ==> r.error == UnsupportedOriginalSampleRate
    ensures r.Ok? ==> |r.value| == 8 && IsBinary(r.value)
    ensures r.Ok? ==> r.value[0] == BitChar(bitDepth > 20)
    ensures r.Ok? ==> r.value[1..4] == DepthCode(bitDepth, 0) && r.value[4..] == "0000"
  {
    var code :=
      if bitDepth in [20, 16] then "100"
      else if bitDepth in [22, 18] then "010"
      else if bitDepth in [23, 19] then "001"
      else if bitDepth in [24, 20] then "101"
      else if bitDepth in [21, 17] then "011"
      else "000";
    if originalSamFreq == 0 then Ok([BitChar(bitDepth > 20)] + code + "0000")
    else Err(UnsupportedOriginalSampleRate)
  }

  /** Bytes 5-23: zero unless extra bytes are given, which is unsupported. */
  function ExtraBytes(extra: Option<seq<int>>): (r: Result<string>)
    ensures r.Ok? <==> extra.None?
    ensures r.Err? ==> r.error == UnsupportedExtraData
    ensures r.Ok? ==> r.value == Zeros(19 * 8)
  {
    if extra.None? then Ok(Zeros(19 * 8)) else Err(UnsupportedExtraData)
  }

  /** The options the model supports (everything else raises). */
  predicate Supported(cfg: Config) {
    && cfg.categoryCode == "digital/digital converters" && cfg.category == "other"
    && cfg.samFreq in RateCodes && cfg.clockAccuracy == "level II"
    && cfg.originalSamFreq == 0
    && cfg.extra.None?
  }

  /** The shapes under which every byte is exactly 8 bits. */
  predicate ByteSized(cfg: Config, channel: nat) {
    |cfg.preEmphasis| == 3 && cfg.mode <= 3 && channel <= 15
  }

  /** One channel's status string: byte 0 to byte 4 and the extra bytes, with
      source number 0 (no sources given) and the channel's number. The first
      unsupported option, in byte order, is the error. */
  function Block(cfg: Config, channel: nat): (r: Result<string>)
    ensures r.Ok? <==> Supported(cfg)
    ensures !(cfg.categoryCode == "digital/digital converters" && cfg.category == "other") ==>
              r == Err(UnsupportedCategory)
    ensures cfg.categoryCode == "digital/digital converters" && cfg.category == "other" ==>
              && (cfg.samFreq !in RateCodes ==> r == Err(UnsupportedSampleRate))
              && (cfg.samFreq in RateCodes && cfg.clockAccuracy != "level II" ==> r == Err(UnsupportedClockAccuracy))
              && (cfg.samFreq in RateCodes && cfg.clockAccuracy == "level II" ==>
                    && (cfg.originalSamFreq != 0 ==> r == Err(UnsupportedOriginalSampleRate))
                    && (cfg.originalSamFreq == 0 && cfg.extra.Some? ==> r == Err(UnsupportedExtraData)))
    ensures r.Ok? ==> |r.value| >= BlockBits - 3 + |cfg.preEmphasis|
  {
    var b1 :- Byte1(cfg.categoryCode, cfg.category, cfg.lBit);
    var b3 :- Byte3(cfg.samFreq, cfg.clockAccuracy);
    var b4 :- Byte4(cfg.bitDepth, cfg.originalSamFreq);
    var extra :- ExtraBytes(cfg.extra);
    var b0 := Byte0(cfg.pro, cfg.digitalAudio, cfg.copyright, cfg.preEmphasis, cfg.mode);
    var b2 := Byte2(0, channel);
    Ok(b0 + b1 + b2 + b3 + b4 + extra)
  }

  /** A status string is binary whenever the pre-emphasis bits are, and, when
      every byte is 8 bits wide, lays its fields out as IEC 60958-3 places them. */
  lemma BlockLayout(cfg: Config, channel: nat)
    requires Block(cfg, channel).Ok?
    ensures IsBinary(cfg.preEmphasis) ==> IsBinary(Block(cfg, channel).value)
    ensures ByteSized(cfg, channel) ==> StatusLayout(cfg, channel, Block(cfg, channel).value)
  {
    var b1 := Byte1(cfg.categoryCode, cfg.category, cfg.lBit).value;
    var b3 := Byte3(cfg.samFreq, cfg.clockAccuracy).value;
    var b4 := Byte4(cfg.bitDepth, cfg.originalSamFreq).value;
    var extra := ExtraBytes(cfg.extra).value;
    var b0 := Byte0(cfg.pro, cfg.digitalAudio, cfg.copyright, cfg.preEmphasis, cfg.mode);
    var b2 := Byte2(0, channel);
    assert Block(cfg, channel).value == b0 + b1 + b2 + b3 + b4 + extra;
    if IsBinary(cfg.preEmphasis) {
      ConcatBinary(b0, b1, b2, b3, b4, extra);
    }
    if ByteSized(cfg, channel) {
      LayoutOf(cfg, channel, b0, b1, b2, b3, b4, extra);
    }
  }

  /** Which option is rejected does not depend on the channel number. */
  lemma ErrorIgnoresChannel(cfg: Config, c1: nat, c2: nat)
    ensures Block(cfg, c1).Err? ==> Block(cfg, c1) == Block(cfg, c2)
  {
  }

  /** Where each field sits in a 192-bit status string, byte by byte. */
  ghost predicate StatusLayout(cfg: Config, channel: nat, s: string) {
    && |s| == BlockBits
    && Byte0Layout(cfg, s[..8])
    && s[8..16] == "010" + "1111" + [BitChar(cfg.lBit)]
    && IsBinary(s[16..24]) && LsbValue(s[16..20]) == 0 && LsbValue(s[20..24]) == channel
    && cfg.samFreq in RateCodes && s[24..32] == RateCodes[cfg.samFreq] + "0000"
    && s[32..40] == [BitChar(cfg.bitDepth > 20)] + DepthCode(cfg.bitDepth, 0) + "0000"
    && s[40..] == Zeros(BlockBits - 40)
  }

  ghost predicate Byte0Layout(cfg: Config, b: string)
    requires |b| == 8
  {
    && b[0] == BitChar(cfg.pro) && b[1] == BitChar(!cfg.digitalAudio) && b[2] == BitChar(!cfg.copyright)
    && b[3..6] == cfg.preEmphasis && IsBinary(b[6..8]) && MsbValue(b[6..8]) == cfg.mode
  }

  lemma LayoutOf(cfg: Config, channel: nat, b0: string, b1: string, b2: string, b3: string, b4: string, extra: string)
    requires b0 == Byte0(cfg.pro, cfg.digitalAudio, cfg.copyright, cfg.preEmphasis, cfg.mode)
    requires Byte1(cfg.categoryCode, cfg.category, cfg.lBit) == Ok(b1)
    requires b2 == Byte2(0, channel)
    requires Byte3(cfg.samFreq, cfg.clockAccuracy) == Ok(b3)
    requires Byte4(cfg.bitDepth, cfg.originalSamFreq) == Ok(b4)
    requires ExtraBytes(cfg.extra) == Ok(extra)
    requires ByteSized(cfg, channel)
    ensures StatusLayout(cfg, channel, b0 + b1 + b2 + b3 + b4 + extra)
  {
    assert Byte0Layout(cfg, b0) by {
      assert b0[6..8] == b0[3 + |cfg.preEmphasis|..];
    }
    BytesAt(cfg, channel, b0, b1, b2, b3, b4, extra);
  }

  lemma ConcatBinary(b0: string, b1: string, b2: string, b3: string, b4: string, extra: string)
    requires IsBinary(b0) && IsBinary(b1) && IsBinary(b2) && IsBinary(b3) && IsBinary(b4) && IsBinary(extra)
    ensures IsBinary(b0 + b1 + b2 + b3 + b4 + extra)
  {
    BinaryAppend(b0, b1);
    BinaryAppend(b0 + b1, b2);
    BinaryAppend(b0 + b1 + b2, b3);
    BinaryAppend(b0 + b1 + b2 + b3, b4);
    BinaryAppend(b0 + b1 + b2 + b3 + b4, extra);
  }

  lemma BytesAt(cfg: Config, channel: nat, b0: string, b1: string, b2: string, b3: string, b4: string, extra: string)
    requires |b0| == |b1| == |b2| == |b3| == |b4| == 8 && |extra| == BlockBits - 40
    requires Byte0Layout(cfg, b0)
    requires b1 == "010" + "1111" + [BitChar(cfg.lBit)]
    requires IsBinary(b2) && LsbValue(b2[..4]) == 0 && LsbValue(b2[4..]) == channel
    requires cfg.samFreq in RateCodes && b3 == RateCodes[cfg.samFreq] + "0000"
    requires b4 == [BitChar(cfg.bitDepth > 20)] + DepthCode(cfg.bitDepth, 0) + "0000"
    requires extra == Zeros(BlockBits - 40)
    ensures StatusLayout(cfg, channel, b0 + b1 + b2 + b3 + b4 + extra)
  {
    var s := b0 + b1 + b2 + b3 + b4 + extra;
    assert s[..8] == b0;
    assert s[8..16] == b1;
    assert s[16..24] == b2;
    assert s[16..20] == b2[..4] && s[20..24] == b2[4..];
    assert s[24..32] == b3;
    assert s[32..40] == b4;
    assert s[40..] == extra;
  }
}
