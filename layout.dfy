/**
  Capture layout decoding: the header size check, the walk over the four
  channel-enable flags that gives each enabled channel its block of raw
  samples, the "no channels" check and the choice of the row width.

  The byte offsets of the header fields are constants of the capture format
  that this model keeps symbolic (`FileFormat`); the fields themselves are
  read by pointer casts, and the model receives them already read (`Header`).
*/
module Layout {
  import opened Wrappers
  import opened Units
  import opened Arith

  /** One byte of the input file. */
  type Byte = x: int | 0 <= x < 256

  /** An `int32_t` read from the header. */
  type I32 = x: int | -0x8000_0000 <= x < 0x8000_0000

  /** The four analog channels' "on" flags, CH1 first; a channel is enabled when its flag is nonzero. */
  type ChannelFlags = s: seq<I32> | |s| == 4 witness [0, 0, 0, 0]

  /** `HEADER_SIZE_BYTES` and `OFFSET_TO_ANALOG_DATA`. */
  datatype FileFormat = FileFormat(headerSize: nat, analogDataOffset: nat)

  /** The header fields the layout depends on: `chN_on` and `wave_length`. */
  datatype Header = Header(channelOn: ChannelFlags, waveLength: U32)

  /**
    The decoded capture. `blocks[k]` is the offset into the input of channel
    k's raw samples when the channel is enabled, and None when it is not (the
    source leaves that pointer unset). `enabled` is
    `enabled_analog_channels` and `rowWidth` is `csv_line_length`.
  */
  datatype Capture = Capture(
    channelOn: ChannelFlags,
    waveLength: nat,
    dataOffset: nat,
    blocks: seq<Option<nat>>,
    enabled: nat,
    rowWidth: nat)

  datatype DecodeError = InputTooSmall | NoChannelsEnabled | DataTruncated

  /** The indices, in increasing order, of the enabled channels among the first k. */
  function EnabledChannels(on: seq<I32>, k: nat): (channels: seq<nat>)
    requires k <= |on|
    ensures |channels| <= k
  {
    if k == 0 then []
    else EnabledChannels(on, k - 1) + (if on[k - 1] != 0 then [k - 1] else [])
  }

  function CountEnabled(on: ChannelFlags): nat {
    |EnabledChannels(on, 4)|
  }

  /** Where channel k's block would start: after one block per enabled channel before it. */
  function BlockStart(base: nat, waveLength: nat, on: ChannelFlags, k: nat): nat
    requires k <= 4
  {
    base + waveLength * |EnabledChannels(on, k)|
  }

  function Block(base: nat, waveLength: nat, on: ChannelFlags, k: nat): Option<nat>
    requires k < 4
  {
    if on[k] != 0 then Some(BlockStart(base, waveLength, on, k)) else None
  }

  function Blocks(base: nat, waveLength: nat, on: ChannelFlags): seq<Option<nat>> {
    [Block(base, waveLength, on, 0), Block(base, waveLength, on, 1),
     Block(base, waveLength, on, 2), Block(base, waveLength, on, 3)]
  }

  /** The `csv_line_length` chosen for 1, 2, 3 or 4 enabled channels. */
  function RowWidth(enabled: nat): (width: nat)
    requires 1 <= enabled <= 4
    ensures width == 19 + 8 * enabled
  {
    if enabled == 1 then 27
    else if enabled == 2 then 35
    else if enabled == 3 then 43
    else 51
  }

  predicate CaptureValid(cap: Capture) {
    && cap.blocks == Blocks(cap.dataOffset, cap.waveLength, cap.channelOn)
    && cap.enabled == CountEnabled(cap.channelOn)
    && 1 <= cap.enabled <= 4
    && cap.rowWidth == RowWidth(cap.enabled)
  }

  /** The input holds every enabled channel's block: what the source never checks. */
  predicate DataInBounds(cap: Capture, inputSize: nat) {
    cap.dataOffset + cap.enabled * cap.waveLength <= inputSize
  }

  /** What the parsing part of `main` decides for an input and its header fields. */
  function Decode(format: FileFormat, input: seq<Byte>, header: Header): (r: Result<Capture, DecodeError>)
    ensures r == Err(InputTooSmall) <==> |input| < format.headerSize
    ensures r == Err(NoChannelsEnabled) <==>
      |input| >= format.headerSize && forall k :: 0 <= k < 4 ==> header.channelOn[k] == 0
    ensures r.Ok? ==>
      && CaptureValid(r.value)
      && r.value.channelOn == header.channelOn
      && r.value.waveLength == header.waveLength
      && r.value.dataOffset == format.analogDataOffset
    ensures r != Err(DataTruncated)
  {
    NoChannelsIffAllOff(header.channelOn);
    if |input| < format.headerSize then Err(InputTooSmall)
    else
      var n := CountEnabled(header.channelOn);
      if n == 0 then Err(NoChannelsEnabled)
      else
        Ok(Capture(header.channelOn, header.waveLength, format.analogDataOffset,
                   Blocks(format.analogDataOffset, header.waveLength, header.channelOn),
                   n, RowWidth(n)))
  }

  /** `Decode` with the missing check added: an input too short for its channel blocks is rejected. */
  function DecodeChecked(format: FileFormat, input: seq<Byte>, header: Header): (r: Result<Capture, DecodeError>)
    ensures r.Ok? <==> Decode(format, input, header).Ok? && DataInBounds(Decode(format, input, header).value, |input|)
    ensures r.Ok? ==> r == Decode(format, input, header)
    ensures r.Ok? ==> forall k :: 0 <= k < 4 && r.value.blocks[k].Some? ==>
      r.value.blocks[k].value + r.value.waveLength <= |input|
    ensures r.Err? && Decode(format, input, header).Err? ==> r == Decode(format, input, header)
    ensures Decode(format, input, header).Ok? && !DataInBounds(Decode(format, input, header).value, |input|) ==>
      r == Err(DataTruncated)
  {
    var d := Decode(format, input, header);
    if d.Ok? && !DataInBounds(d.value, |input|) then Err(DataTruncated)
    else
      if d.Ok? then
        forall k | 0 <= k < 4 && d.value.blocks[k].Some?
          ensures d.value.blocks[k].value + d.value.waveLength <= |input|
        {
          BlockSetIffEnabled(d.value, k);
          BlockWithinData(d.value, k);
        }
        d
      else d
  }

  /**
    The layout walk of `main`: starting at the analog-data offset, each
    enabled channel in turn takes the next `wave_length` bytes and is counted.
  */
  method AssignChannelBlocks(on: ChannelFlags, waveLength: nat, base: nat)
    returns (blocks: seq<Option<nat>>, counter: nat, enabled: nat)
    ensures blocks == Blocks(base, waveLength, on)
    ensures enabled == CountEnabled(on)
    ensures counter == base + enabled * waveLength
  {
    counter, enabled := base, 0;
    blocks := [];
    if on[0] != 0 {
      blocks := blocks + [Some(counter)];
      counter := counter + waveLength;
      enabled := enabled + 1;
    } else {
      blocks := blocks + [None];
    }
    assert enabled == |EnabledChannels(on, 1)|;
    if on[1] != 0 {
      blocks := blocks + [Some(counter)];
      counter := counter + waveLength;
      enabled := enabled + 1;
    } else {
      blocks := blocks + [None];
    }
    assert enabled == |EnabledChannels(on, 2)|;
    if on[2] != 0 {
      blocks := blocks + [Some(counter)];
      counter := counter + waveLength;
      enabled := enabled + 1;
    } else {
      blocks := blocks + [None];
    }
    assert enabled == |EnabledChannels(on, 3)|;
    if on[3] != 0 {
      blocks := blocks + [Some(counter)];
      counter := counter + waveLength;
      enabled := enabled + 1;
    } else {
      blocks := blocks + [None];
    }
    assert enabled == |EnabledChannels(on, 4)|;
  }

  /** The parsing section of `main`, step by step: size check, layout walk, channel check, row width. */
  method DecodeCapture(format: FileFormat, input: seq<Byte>, header: Header)
    returns (r: Result<Capture, DecodeError>)
    ensures r == Decode(format, input, header)
  {
    if |input| < format.headerSize {
      return Err(InputTooSmall);
    }
    var blocks, counter, enabled := AssignChannelBlocks(header.channelOn, header.waveLength, format.analogDataOffset);
    if enabled == 0 {
      return Err(NoChannelsEnabled);
    }
    var rowWidth := RowWidth(enabled);
    r := Ok(Capture(header.channelOn, header.waveLength, format.analogDataOffset, blocks, enabled, rowWidth));
  }

  /** A channel is listed exactly when it is enabled, and the list is in channel order. */
  lemma {:induction false} EnabledChannelsMembers(on: seq<I32>, k: nat)
    requires k <= |on|
    ensures forall c :: c in EnabledChannels(on, k) <==> 0 <= c < k && on[c] != 0
    ensures forall a, b :: 0 <= a < b < |EnabledChannels(on, k)| ==>
      EnabledChannels(on, k)[a] < EnabledChannels(on, k)[b]
  {
    if k > 0 {
      EnabledChannelsMembers(on, k - 1);
      var prev, all := EnabledChannels(on, k - 1), EnabledChannels(on, k);
      forall a, b | 0 <= a < b < |all|
        ensures all[a] < all[b]
      {
        if b == |prev| {
          assert prev[a] in prev;
        }
      }
    }
  }

  /** `enabled_analog_channels` is zero exactly when every flag is zero. */
  lemma NoChannelsIffAllOff(on: ChannelFlags)
    ensures CountEnabled(on) == 0 <==> forall k :: 0 <= k < 4 ==> on[k] == 0
  {
    EnabledChannelsMembers(on, 4);
    if CountEnabled(on) != 0 {
      assert EnabledChannels(on, 4)[0] in EnabledChannels(on, 4);
    }
  }

  /** The channels enabled before the j-th enabled channel are the first j enabled channels. */
  lemma {:induction false} EnabledChannelsRank(on: seq<I32>, k: nat, j: nat)
    requires k <= |on|
    requires j < |EnabledChannels(on, k)|
    ensures EnabledChannels(on, k)[j] < k
    ensures EnabledChannels(on, EnabledChannels(on, k)[j]) == EnabledChannels(on, k)[..j]
  {
    var prev := EnabledChannels(on, k - 1);
    if j < |prev| {
      EnabledChannelsRank(on, k - 1, j);
      assert EnabledChannels(on, k)[..j] == prev[..j];
    } else {
      assert EnabledChannels(on, k)[..j] == prev;
    }
  }

  /** The j-th enabled channel's block starts j blocks after the analog-data offset. */
  lemma ChannelBlockOffset(base: nat, waveLength: nat, on: ChannelFlags, j: nat)
    requires j < CountEnabled(on)
    ensures EnabledChannels(on, 4)[j] < 4
    ensures Blocks(base, waveLength, on)[EnabledChannels(on, 4)[j]] == Some(base + waveLength * j)
  {
    var all := EnabledChannels(on, 4);
    var c := all[j];
    EnabledChannelsRank(on, 4, j);
    assert |EnabledChannels(on, c)| == j;
    EnabledChannelsMembers(on, 4);
    assert c in all;
    assert on[c] != 0;
    assert Block(base, waveLength, on, c) == Some(base + waveLength * j);
    BlocksAt(base, waveLength, on, c);
  }

  lemma BlocksAt(base: nat, waveLength: nat, on: ChannelFlags, k: nat)
    requires k < 4
    ensures Blocks(base, waveLength, on)[k] == Block(base, waveLength, on, k)
  {
  }

  /** Walking past a disabled channel moves the counter by nothing, past an enabled one by one block. */
  lemma BlockStartStep(base: nat, waveLength: nat, on: ChannelFlags, k: nat)
    requires k < 4
    ensures on[k] == 0 ==> BlockStart(base, waveLength, on, k + 1) == BlockStart(base, waveLength, on, k)
    ensures on[k] != 0 ==> BlockStart(base, waveLength, on, k + 1) == BlockStart(base, waveLength, on, k) + waveLength
  {
  }

  lemma {:induction false} EnabledCountMonotone(on: seq<I32>, a: nat, b: nat)
    requires a <= b <= |on|
    ensures |EnabledChannels(on, a)| <= |EnabledChannels(on, b)|
    decreases b - a
  {
    if a < b {
      EnabledCountMonotone(on, a, b - 1);
    }
  }

  /**
    The blocks of two enabled channels j < k do not overlap, and every
    enabled block lies between the analog-data offset and the final counter.
  */
  lemma BlocksDisjoint(base: nat, waveLength: nat, on: ChannelFlags, j: nat, k: nat)
    requires j < k < 4
    requires on[j] != 0
    ensures BlockStart(base, waveLength, on, j) + waveLength <= BlockStart(base, waveLength, on, k)
  {
    EnabledCountMonotone(on, j + 1, k);
    var x, y := |EnabledChannels(on, j)|, |EnabledChannels(on, k)|;
    assert x + 1 <= y;
    MulMonotone(waveLength, x + 1, y);
  }

  /** In a valid capture a channel has a block exactly when it is enabled. */
  lemma BlockSetIffEnabled(cap: Capture, k: nat)
    requires CaptureValid(cap) && k < 4
    ensures cap.blocks[k].Some? <==> cap.channelOn[k] != 0
    ensures cap.blocks[k].Some? ==>
      cap.blocks[k].value == BlockStart(cap.dataOffset, cap.waveLength, cap.channelOn, k)
  {
    BlocksAt(cap.dataOffset, cap.waveLength, cap.channelOn, k);
  }

  /** An enabled channel's block lies between the analog-data offset and the final counter. */
  lemma BlockWithinData(cap: Capture, k: nat)
    requires CaptureValid(cap)
    requires k < 4 && cap.channelOn[k] != 0
    ensures cap.blocks[k] == Some(BlockStart(cap.dataOffset, cap.waveLength, cap.channelOn, k))
    ensures cap.dataOffset <= cap.blocks[k].value
    ensures cap.blocks[k].value + cap.waveLength <= cap.dataOffset + cap.enabled * cap.waveLength
  {
    var on := cap.channelOn;
    BlockSetIffEnabled(cap, k);
    EnabledCountMonotone(on, k + 1, 4);
    var x := |EnabledChannels(on, k)|;
    assert |EnabledChannels(on, k + 1)| == x + 1;
    MulMonotone(cap.waveLength, x + 1, cap.enabled);
    MulSucc(x, cap.waveLength);
  }

  /**
    A header with one channel on and a long wave but no sample bytes is
    accepted by `Decode`. The `Header` stands for the fields read from the
    file's first 16 bytes, here a CH1 flag that is set; the byte values
    themselves are not modelled.
  */
  lemma DecodeAcceptsTruncatedInput()
    ensures var format, input, header := FileFormat(16, 16), seq(16, _ => 0), Header([1, 0, 0, 0], 100);
      && Decode(format, input, header).Ok?
      && Decode(format, input, header).value.blocks[0] == Some(16)
      && !DataInBounds(Decode(format, input, header).value, |input|)
      && DecodeChecked(format, input, header) == Err(DataTruncated)
  {
    var on: ChannelFlags := [1, 0, 0, 0];
    assert EnabledChannels(on, 1) == [0];
    assert CountEnabled(on) == 1;
  }
}
