/**
  What the conversion writes: the values of one row, the bytes `snprintf`
  and the trailing newline leave in the row's slot of the output buffer, and
  the buffer after rows [lo, hi) have been written.

  Floating-point values are modelled as reals and the text that `snprintf`
  makes of them is an opaque `Formatter`; the way `snprintf` places that text
  in a slot of `csv_line_length` bytes is modelled exactly.
*/
module Rows {
  import opened Wrappers
  import opened Arith
  import opened Layout

  /** The per-capture constants: `time_offset`, `time_scaling_factor`, `chN_scaling_factor`. */
  datatype Scaling = Scaling(timeOffset: real, timeStep: real, channelScale: seq<real>)

  /** The text the capture's format string gives for a timestamp and the enabled channels' values. */
  type Formatter = (real, seq<real>) -> string

  /** Everything a conversion task reads: the input bytes, the capture, its scaling and its format. */
  datatype Job = Job(input: seq<Byte>, capture: Capture, scaling: Scaling, format: Formatter)

  /**
    What reading and writing every row needs: one scale per channel, rows of
    at least one byte, and for every enabled channel a block offset whose
    whole block of `wave_length` samples lies inside the input.
  */
  predicate Readable(job: Job) {
    && |job.capture.blocks| == 4 && |job.scaling.channelScale| == 4
    && job.capture.rowWidth >= 1
    && forall c :: 0 <= c < 4 && job.capture.channelOn[c] != 0 ==>
         job.capture.blocks[c].Some? && job.capture.blocks[c].value + job.capture.waveLength <= |job.input|
  }

  /** A decoded capture whose blocks all lie inside the input: hence readable. */
  predicate JobValid(job: Job) {
    && CaptureValid(job.capture)
    && DataInBounds(job.capture, |job.input|)
    && Readable(job)
  }

  /** A checked capture with one scale per channel is a valid job. */
  lemma ValidJob(job: Job)
    requires CaptureValid(job.capture) && DataInBounds(job.capture, |job.input|)
    requires |job.scaling.channelScale| == 4
    ensures JobValid(job)
  {
    forall c | 0 <= c < 4 && job.capture.channelOn[c] != 0
      ensures job.capture.blocks[c].Some? && job.capture.blocks[c].value + job.capture.waveLength <= |job.input|
    {
      BlockWithinData(job.capture, c);
    }
  }

  /** `(raw - 128) * scale`: code 128 is the zero line, codes above it are positive for a positive scale. */
  function SampleValue(raw: Byte, scale: real): (v: real)
    ensures raw == 128 ==> v == 0.0
    ensures scale > 0.0 ==> (v > 0.0 <==> raw > 128) && (v < 0.0 <==> raw < 128)
  {
    (raw - 128) as real * scale
  }

  /** `timestamp` before the increment of iteration i, over the reals: the capture offset plus one step per earlier row. */
  function TimeBefore(sc: Scaling, i: nat): real {
    if i == 0 then sc.timeOffset else TimeBefore(sc, i - 1) + sc.timeStep
  }

  /** The timestamp printed in row i: one step after `TimeBefore`. */
  function Timestamp(sc: Scaling, i: nat): real {
    TimeBefore(sc, i) + sc.timeStep
  }

  /** A task starting at row s may seed `timestamp` with `time_offset + s * time_scaling_factor`. */
  lemma {:induction false} TimeBeforeClosedForm(sc: Scaling, i: nat)
    ensures TimeBefore(sc, i) == sc.timeOffset + i as real * sc.timeStep
  {
    if i > 0 {
      TimeBeforeClosedForm(sc, i - 1);
      assert (i - 1) as real * sc.timeStep + sc.timeStep == i as real * sc.timeStep;
    }
  }

  /** Row i is stamped `time_offset + (i + 1) * time_scaling_factor`: the first row is one step past the offset. */
  lemma TimestampClosedForm(sc: Scaling, i: nat)
    ensures Timestamp(sc, i) == sc.timeOffset + (i + 1) as real * sc.timeStep
    ensures Timestamp(sc, i + 1) == Timestamp(sc, i) + sc.timeStep
  {
    TimeBeforeClosedForm(sc, i);
    assert i as real * sc.timeStep + sc.timeStep == (i + 1) as real * sc.timeStep;
  }

  /** The raw code of sample i of enabled channel c: `chN_data_offset[i]`. */
  function Sample(job: Job, c: nat, i: nat): Byte
    requires Readable(job) && c < 4 && job.capture.channelOn[c] != 0 && i < job.capture.waveLength
  {
    job.input[job.capture.blocks[c].value + i]
  }

  /** `channel_values` after the tests of the first k channels for sample i. */
  function ChannelValuesUpTo(job: Job, i: nat, k: nat): seq<real>
    requires Readable(job) && i < job.capture.waveLength && k <= 4
  {
    if k == 0 then []
    else
      var prev := ChannelValuesUpTo(job, i, k - 1);
      if job.capture.channelOn[k - 1] != 0 then
        prev + [SampleValue(Sample(job, k - 1, i), job.scaling.channelScale[k - 1])]
      else prev
  }

  function ChannelValues(job: Job, i: nat): seq<real>
    requires Readable(job) && i < job.capture.waveLength
  {
    ChannelValuesUpTo(job, i, 4)
  }

  /** There is one value per enabled channel, in channel order, each scaled from its own block. */
  lemma {:induction false} ChannelValuesInOrder(job: Job, i: nat, k: nat)
    requires Readable(job) && i < job.capture.waveLength && k <= 4
    ensures |ChannelValuesUpTo(job, i, k)| == |EnabledChannels(job.capture.channelOn, k)|
    ensures forall j :: 0 <= j < |ChannelValuesUpTo(job, i, k)| ==>
      var c := EnabledChannels(job.capture.channelOn, k)[j];
      && c < k && job.capture.channelOn[c] != 0
      && ChannelValuesUpTo(job, i, k)[j] == SampleValue(Sample(job, c, i), job.scaling.channelScale[c])
  {
    if k > 0 {
      ChannelValuesInOrder(job, i, k - 1);
    }
  }

  /**
    The j-th value of a row comes from the j-th enabled channel, whose block
    starts j blocks after the analog-data offset.
  */
  lemma ChannelValueSource(job: Job, i: nat, j: nat)
    requires JobValid(job) && i < job.capture.waveLength
    requires j < job.capture.enabled
    ensures |ChannelValues(job, i)| == job.capture.enabled
    ensures var cap := job.capture;
      && EnabledChannels(cap.channelOn, 4)[j] < 4
      && cap.dataOffset + cap.waveLength * j + i < |job.input|
      && ChannelValues(job, i)[j] ==
         SampleValue(job.input[cap.dataOffset + cap.waveLength * j + i],
                     job.scaling.channelScale[EnabledChannels(cap.channelOn, 4)[j]])
  {
    var cap := job.capture;
    ChannelValuesInOrder(job, i, 4);
    ChannelBlockOffset(cap.dataOffset, cap.waveLength, cap.channelOn, j);
    var c := EnabledChannels(cap.channelOn, 4)[j];
    BlockWithinData(cap, c);
  }

  /** The text of row i: the timestamp and the channel values run through the format. */
  function RowText(job: Job, i: nat): string
    requires Readable(job) && i < job.capture.waveLength
  {
    job.format(Timestamp(job.scaling, i), ChannelValues(job, i))
  }

  /**
    The bytes `snprintf(dst, |dst|, ...)` leaves in `dst` for the text `text`:
    at most |dst| - 1 characters of the text, then a NUL; later bytes keep
    what they held.
  */
  function Snprintf(dst: seq<char>, text: string): (written: seq<char>)
    requires |dst| >= 1
    ensures |written| == |dst|
  {
    var k := if |text| < |dst| - 1 then |text| else |dst| - 1;
    seq(|dst|, j requires 0 <= j < |dst| => if j < k then text[j] else if j == k then '\0' else dst[j])
  }

  /** A row slot after `snprintf` and `output_pointer[csv_line_length - 1] = '\n'`. */
  function RowBytes(dst: seq<char>, text: string): (row: seq<char>)
    requires |dst| >= 1
    ensures |row| == |dst|
  {
    var written := Snprintf(dst, text);
    seq(|dst|, j requires 0 <= j < |dst| => if j == |dst| - 1 then '\n' else written[j])
  }

  /**
    What a row slot holds after one iteration: the newline in its last byte;
    before it the text, cut to |dst| - 1 characters when it is that long or
    longer, and otherwise the text, its NUL terminator and the slot's old bytes.
  */
  lemma RowBytesShape(dst: seq<char>, text: string)
    requires |dst| >= 1
    ensures RowBytes(dst, text)[|dst| - 1] == '\n'
    ensures forall j :: 0 <= j < |text| && j < |dst| - 1 ==> RowBytes(dst, text)[j] == text[j]
    ensures |text| >= |dst| - 1 ==> RowBytes(dst, text) == text[..|dst| - 1] + "\n"
    ensures |text| < |dst| - 1 ==>
      RowBytes(dst, text)[|text|] == '\0' &&
      forall j :: |text| < j < |dst| - 1 ==> RowBytes(dst, text)[j] == dst[j]
  {
  }

  /** The text of every row of the capture, in row order. */
  function RowTexts(job: Job): (texts: seq<string>)
    requires Readable(job)
    ensures |texts| == job.capture.waveLength
  {
    RowTextsUpTo(job, job.capture.waveLength)
  }

  /** The texts of rows [0, n). */
  function RowTextsUpTo(job: Job, n: nat): (texts: seq<string>)
    requires Readable(job) && n <= job.capture.waveLength
    ensures |texts| == n
  {
    if n == 0 then [] else RowTextsUpTo(job, n - 1) + [RowText(job, n - 1)]
  }

  lemma {:induction false} RowTextsUpToAt(job: Job, n: nat, i: nat)
    requires Readable(job) && i < n <= job.capture.waveLength
    ensures RowTextsUpTo(job, n)[i] == RowText(job, i)
  {
    if i < n - 1 {
      RowTextsUpToAt(job, n - 1, i);
    }
  }

  /** Entry i of the row texts is the text of row i. */
  lemma RowTextsAt(job: Job, i: nat)
    requires Readable(job) && i < job.capture.waveLength
    ensures RowTexts(job)[i] == RowText(job, i)
  {
    RowTextsUpToAt(job, job.capture.waveLength, i);
  }

  /** The buffer with the slot [pos, pos + |row|) replaced by `row`. */
  function WriteRow(buf: seq<char>, pos: nat, row: seq<char>): (r: seq<char>)
    requires pos + |row| <= |buf|
    ensures |r| == |buf|
  {
    seq(|buf|, q requires 0 <= q < |buf| => if pos <= q < pos + |row| then row[q - pos] else buf[q])
  }

  /** Byte q of a buffer after one slot was replaced: from the row inside the slot, the old byte outside. */
  lemma WriteRowByte(buf: seq<char>, pos: nat, row: seq<char>, q: nat)
    requires pos + |row| <= |buf| && q < |buf|
    ensures WriteRow(buf, pos, row)[q] == if pos <= q < pos + |row| then row[q - pos] else buf[q]
  {
  }

  /** Row i of a buffer of rows of w bytes. */
  function Row(bytes: seq<char>, w: nat, i: nat): seq<char>
    requires Slot(i, w) + w <= |bytes|
  {
    bytes[Slot(i, w) .. Slot(i, w) + w]
  }

  /** Rows [0, hi) of w bytes each fit in a buffer of n bytes, and each has a text. */
  predicate Fits(n: nat, w: nat, texts: seq<string>, hi: nat) {
    w >= 1 && hi <= |texts| && Slot(hi, w) <= n
  }

  /** The buffer after rows lo, lo + 1, ..., hi - 1 have been written in that order. */
  function Rendered(buf: seq<char>, w: nat, texts: seq<string>, lo: nat, hi: nat): (r: seq<char>)
    requires Fits(|buf|, w, texts, hi)
    ensures |r| == |buf|
    decreases hi
  {
    if hi <= lo then buf
    else
      var prev := Rendered(buf, w, texts, lo, hi - 1);
      var pos := Slot(hi - 1, w);
      WriteRow(prev, pos, RowBytes(prev[pos..pos + w], texts[hi - 1]))
  }

  /** Writing one more row: row hi is written into its slot of the buffer that rows [lo, hi) left. */
  lemma RenderedStep(buf: seq<char>, w: nat, texts: seq<string>, lo: nat, hi: nat)
    requires Fits(|buf|, w, texts, hi + 1) && lo <= hi
    ensures Slot(hi, w) <= |buf|
    ensures var prev := Rendered(buf, w, texts, lo, hi);
      var pos := Slot(hi, w);
      Rendered(buf, w, texts, lo, hi + 1) == WriteRow(prev, pos, RowBytes(prev[pos..pos + w], texts[hi]))
  {
  }

  /** A buffer that rows [lo, hi) left, with row hi written into its slot, is the buffer rows [lo, hi + 1) leave. */
  lemma RenderedNext(buf: seq<char>, w: nat, texts: seq<string>, lo: nat, hi: nat, before: seq<char>, after: seq<char>)
    requires Fits(|buf|, w, texts, hi + 1) && lo <= hi
    requires before == Rendered(buf, w, texts, lo, hi)
    requires Slot(hi, w) + w <= |before|
    requires after == WriteRow(before, Slot(hi, w), RowBytes(before[Slot(hi, w)..Slot(hi, w) + w], texts[hi]))
    ensures after == Rendered(buf, w, texts, lo, hi + 1)
  {
    RenderedStep(buf, w, texts, lo, hi);
  }

  /** Writing rows [lo, hi) leaves every byte outside their slots alone. */
  lemma {:induction false} RenderedOutside(buf: seq<char>, w: nat, texts: seq<string>, lo: nat, hi: nat, q: nat)
    requires Fits(|buf|, w, texts, hi)
    requires q < |buf|
    requires q < Slot(lo, w) || Slot(hi, w) <= q
    ensures Rendered(buf, w, texts, lo, hi)[q] == buf[q]
    decreases hi
  {
    if lo < hi {
      SlotMonotone(lo, hi - 1, w);
      var prev := Rendered(buf, w, texts, lo, hi - 1);
      var pos := Slot(hi - 1, w);
      WriteRowByte(prev, pos, RowBytes(prev[pos..pos + w], texts[hi - 1]), q);
      RenderedOutside(buf, w, texts, lo, hi - 1, q);
    }
  }

  /** A row outside [lo, hi) is the same before and after rows [lo, hi) are written. */
  lemma RowOutsideUnchanged(buf: seq<char>, w: nat, texts: seq<string>, lo: nat, hi: nat, i: nat)
    requires Fits(|buf|, w, texts, hi)
    requires i < lo || hi <= i
    requires Slot(i, w) + w <= |buf|
    ensures Row(Rendered(buf, w, texts, lo, hi), w, i) == Row(buf, w, i)
  {
    var r := Rendered(buf, w, texts, lo, hi);
    var start := Slot(i, w);
    if i < lo {
      SlotMonotone(i, lo, w);
    } else {
      SlotMonotone(hi, i, w);
    }
    forall c | 0 <= c < w
      ensures Row(r, w, i)[c] == Row(buf, w, i)[c]
    {
      RenderedOutside(buf, w, texts, lo, hi, start + c);
    }
  }

  /** Byte q, in the slot of row i of [lo, hi), is what one iteration makes of that byte of the row's old slot. */
  lemma {:induction false} RenderedRowByte(buf: seq<char>, w: nat, texts: seq<string>, lo: nat, hi: nat, i: nat, q: nat)
    requires Fits(|buf|, w, texts, hi)
    requires lo <= i < hi && Slot(i, w) <= q < Slot(i, w) + w
    ensures Slot(i, w) + w <= |buf|
    ensures Rendered(buf, w, texts, lo, hi)[q] == RowBytes(Row(buf, w, i), texts[i])[q - Slot(i, w)]
    decreases hi
  {
    SlotMonotone(i, hi - 1, w);
    if i == hi - 1 {
      LastRowByte(buf, w, texts, lo, hi, q);
    } else {
      var prev := Rendered(buf, w, texts, lo, hi - 1);
      var pos := Slot(hi - 1, w);
      WriteRowByte(prev, pos, RowBytes(prev[pos..pos + w], texts[hi - 1]), q);
      RenderedRowByte(buf, w, texts, lo, hi - 1, i, q);
    }
  }

  /** The byte q of the last row written, hi - 1, comes from that row's old slot. */
  lemma LastRowByte(buf: seq<char>, w: nat, texts: seq<string>, lo: nat, hi: nat, q: nat)
    requires Fits(|buf|, w, texts, hi)
    requires lo < hi && Slot(hi - 1, w) <= q < Slot(hi, w)
    ensures Rendered(buf, w, texts, lo, hi)[q] == RowBytes(Row(buf, w, hi - 1), texts[hi - 1])[q - Slot(hi - 1, w)]
  {
    var prev := Rendered(buf, w, texts, lo, hi - 1);
    var pos := Slot(hi - 1, w);
    RowOutsideUnchanged(buf, w, texts, lo, hi - 1, hi - 1);
    assert prev[pos..pos + w] == Row(buf, w, hi - 1);
    WriteRowByte(prev, pos, RowBytes(prev[pos..pos + w], texts[hi - 1]), q);
  }

  /** Row i of the written buffer is what one iteration makes of the row's old slot. */
  lemma RenderedRow(buf: seq<char>, w: nat, texts: seq<string>, lo: nat, hi: nat, i: nat)
    requires Fits(|buf|, w, texts, hi)
    requires lo <= i < hi
    ensures Slot(i, w) + w <= |buf|
    ensures Row(Rendered(buf, w, texts, lo, hi), w, i) == RowBytes(Row(buf, w, i), texts[i])
  {
    SlotMonotone(i, hi, w);
    var r := Rendered(buf, w, texts, lo, hi);
    var row := RowBytes(Row(buf, w, i), texts[i]);
    forall c | 0 <= c < w
      ensures Row(r, w, i)[c] == row[c]
    {
      RenderedRowByte(buf, w, texts, lo, hi, i, Slot(i, w) + c);
    }
  }

  /** Writing rows [lo, mid) and then [mid, hi) is writing rows [lo, hi). */
  lemma {:induction false} RenderedCompose(buf: seq<char>, w: nat, texts: seq<string>, lo: nat, mid: nat, hi: nat)
    requires Fits(|buf|, w, texts, hi)
    requires lo <= mid <= hi
    ensures Slot(mid, w) <= |buf|
    ensures Rendered(Rendered(buf, w, texts, lo, mid), w, texts, mid, hi) == Rendered(buf, w, texts, lo, hi)
    decreases hi
  {
    SlotMonotone(mid, hi, w);
    if mid < hi {
      RenderedCompose(buf, w, texts, lo, mid, hi - 1);
    }
  }

  /**
    `bytes` holds one row per text: row i is what one iteration makes of the
    slot of row i in `initial`.
  */
  predicate RowsOf(bytes: seq<char>, initial: seq<char>, w: nat, texts: seq<string>) {
    && w >= 1 && |bytes| == Slot(|texts|, w) && |bytes| <= |initial|
    && forall i :: 0 <= i < |texts| ==>
         Slot(i, w) + w <= |bytes| && Row(bytes, w, i) == RowBytes(Row(initial, w, i), texts[i])
  }

  /** Writing every row of `texts` and keeping the rows' bytes gives one row per text. */
  lemma RenderedRowsOf(initial: seq<char>, w: nat, texts: seq<string>, n: nat)
    requires Fits(|initial|, w, texts, |texts|) && n == Slot(|texts|, w)
    ensures RowsOf(Rendered(initial, w, texts, 0, |texts|)[..n], initial, w, texts)
  {
    forall i | 0 <= i < |texts|
      ensures Slot(i, w) + w <= n
      ensures Row(Rendered(initial, w, texts, 0, |texts|)[..n], w, i) == RowBytes(Row(initial, w, i), texts[i])
    {
      RenderedPrefixRow(initial, w, texts, n, i);
    }
  }

  /** Row i of the written rows, once the buffer is cut after its last row. */
  lemma RenderedPrefixRow(initial: seq<char>, w: nat, texts: seq<string>, n: nat, i: nat)
    requires Fits(|initial|, w, texts, |texts|) && n == Slot(|texts|, w) && i < |texts|
    ensures Slot(i, w) + w <= n
    ensures Row(Rendered(initial, w, texts, 0, |texts|)[..n], w, i) == RowBytes(Row(initial, w, i), texts[i])
  {
    RenderedRow(initial, w, texts, 0, |texts|, i);
    SlotMonotone(i + 1, |texts|, w);
    PrefixRow(Rendered(initial, w, texts, 0, |texts|), n, w, i);
  }

  /** Cutting a buffer after its last row keeps every row. */
  lemma PrefixRow(bytes: seq<char>, n: nat, w: nat, i: nat)
    requires Slot(i, w) + w <= n <= |bytes|
    ensures Row(bytes[..n], w, i) == Row(bytes, w, i)
  {
  }

  /**
    Two disjoint ranges of rows can be written in either order with the same
    result: the buffer does not depend on which task finishes first.
  */
  lemma RenderedCommute(buf: seq<char>, w: nat, texts: seq<string>, a: nat, b: nat, c: nat, d: nat)
    requires Fits(|buf|, w, texts, d)
    requires a <= b <= c <= d
    ensures Slot(b, w) <= |buf|
    ensures Rendered(Rendered(buf, w, texts, a, b), w, texts, c, d) ==
            Rendered(Rendered(buf, w, texts, c, d), w, texts, a, b)
  {
    SlotMonotone(b, d, w);
    var left := Rendered(Rendered(buf, w, texts, a, b), w, texts, c, d);
    var right := Rendered(Rendered(buf, w, texts, c, d), w, texts, a, b);
    forall q | 0 <= q < |buf|
      ensures left[q] == right[q]
    {
      SlotMonotone(b, c, w);
      if q < Slot(b, w) {
        LowerRangeByte(buf, w, texts, a, b, c, d, q);
      } else {
        UpperRangeByte(buf, w, texts, a, b, c, d, q);
      }
    }
  }

  /** A byte below the slot of row b: only the rows [a, b) can have written it. */
  lemma LowerRangeByte(buf: seq<char>, w: nat, texts: seq<string>, a: nat, b: nat, c: nat, d: nat, q: nat)
    requires Fits(|buf|, w, texts, d)
    requires a <= b <= c <= d && q < Slot(b, w)
    ensures Slot(b, w) <= |buf|
    ensures Rendered(Rendered(buf, w, texts, a, b), w, texts, c, d)[q] ==
            Rendered(Rendered(buf, w, texts, c, d), w, texts, a, b)[q]
  {
    SlotMonotone(b, c, w);
    SlotMonotone(c, d, w);
    var first, second := Rendered(buf, w, texts, a, b), Rendered(buf, w, texts, c, d);
    RenderedOutside(first, w, texts, c, d, q);
    if Slot(a, w) <= q {
      var i := SlotOf(q, w, a, b);
      SlotMonotone(i, b, w);
      RowOutsideUnchanged(buf, w, texts, c, d, i);
      RenderedRowByte(buf, w, texts, a, b, i, q);
      RenderedRowByte(second, w, texts, a, b, i, q);
    } else {
      SlotMonotone(a, c, w);
      RenderedOutside(buf, w, texts, a, b, q);
      RenderedOutside(second, w, texts, a, b, q);
      RenderedOutside(buf, w, texts, c, d, q);
    }
  }

  /** A byte at or above the slot of row b: only the rows [c, d) can have written it. */
  lemma UpperRangeByte(buf: seq<char>, w: nat, texts: seq<string>, a: nat, b: nat, c: nat, d: nat, q: nat)
    requires Fits(|buf|, w, texts, d)
    requires a <= b <= c <= d && Slot(b, w) <= q < |buf|
    ensures Slot(b, w) <= |buf|
    ensures Rendered(Rendered(buf, w, texts, a, b), w, texts, c, d)[q] ==
            Rendered(Rendered(buf, w, texts, c, d), w, texts, a, b)[q]
  {
    SlotMonotone(b, d, w);
    var first, second := Rendered(buf, w, texts, a, b), Rendered(buf, w, texts, c, d);
    RenderedOutside(second, w, texts, a, b, q);
    if Slot(c, w) <= q < Slot(d, w) {
      var i := SlotOf(q, w, c, d);
      SlotMonotone(i, d, w);
      RowOutsideUnchanged(buf, w, texts, a, b, i);
      RenderedRowByte(buf, w, texts, c, d, i, q);
      RenderedRowByte(first, w, texts, c, d, i, q);
    } else {
      RenderedOutside(buf, w, texts, a, b, q);
      RenderedOutside(first, w, texts, c, d, q);
      RenderedOutside(buf, w, texts, c, d, q);
    }
  }
}
