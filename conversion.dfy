/**
  The conversion proper: `conversion_thread`, which fills the rows of one
  task into the shared output buffer, and the part of `main` that allocates
  that buffer and launches one task per chunk of samples.

  The output buffer is an `array<char>` of `wave_length * csv_line_length + 1`
  bytes, as `malloc` returns it: its initial content is a parameter. Each task
  is run to completion where `main` launches it; `Rows.RenderedCommute` shows
  that the buffer does not depend on the order in which tasks finish.
*/
module Conversion {
  import opened Wrappers
  import opened Arith
  import opened Layout
  import opened Rows
  import opened Partition

  /** The four `if (chN_on)` tests of one iteration, yielding `channel_values[0 .. channel_values_index)`. */
  method ChannelValuesAt(job: Job, i: nat) returns (values: seq<real>)
    requires Readable(job) && i < job.capture.waveLength
    ensures values == ChannelValues(job, i)
  {
    var on := job.capture.channelOn;
    var scale := job.scaling.channelScale;
    values := [];
    if on[0] != 0 {
      values := values + [SampleValue(Sample(job, 0, i), scale[0])];
    }
    assert values == ChannelValuesUpTo(job, i, 1);
    if on[1] != 0 {
      values := values + [SampleValue(Sample(job, 1, i), scale[1])];
    }
    assert values == ChannelValuesUpTo(job, i, 2);
    if on[2] != 0 {
      values := values + [SampleValue(Sample(job, 2, i), scale[2])];
    }
    assert values == ChannelValuesUpTo(job, i, 3);
    if on[3] != 0 {
      values := values + [SampleValue(Sample(job, 3, i), scale[3])];
    }
    ChannelValuesInOrder(job, i, 4);
  }

  /**
    `snprintf(output_pointer, csv_line_length, ...)` followed by
    `output_pointer[csv_line_length - 1] = '\n'`, for the slot at `pos`.
  */
  method EmitRow(out: array<char>, pos: nat, w: nat, text: string)
    requires 1 <= w && pos + w <= out.Length
    modifies out
    ensures out[..] == WriteRow(old(out[..]), pos, RowBytes(old(out[pos..pos + w]), text))
  {
    ghost var before := out[..];
    var written := Snprintf(out[pos..pos + w], text);
    forall j | pos <= j < pos + w {
      out[j] := written[j - pos];
    }
    out[pos + w - 1] := '\n';
    ghost var row := RowBytes(before[pos..pos + w], text);
    forall q | 0 <= q < out.Length
      ensures out[q] == WriteRow(before, pos, row)[q]
    {
      WriteRowByte(before, pos, row, q);
    }
  }

  /** The timestamp `conversion_thread` starts from, one step before row `start`. */
  function StartTime(sc: Scaling, start: nat): (timestamp: real)
    ensures timestamp == TimeBefore(sc, start)
  {
    TimeBeforeClosedForm(sc, start);
    sc.timeOffset + start as real * sc.timeStep
  }

  /**
    One iteration of the loop of `conversion_thread`: advance `timestamp`,
    gather the channel values of sample i and write row i into its slot,
    which extends the rows [lo, i) already rendered over `initial` by row i.
  */
  method ConvertRow(out: array<char>, job: Job, i: nat, pos: nat, timestamp: real,
                    ghost initial: seq<char>, ghost lo: nat) returns (next: real)
    requires Readable(job) && lo <= i < job.capture.waveLength
    requires Fits(|initial|, job.capture.rowWidth, RowTexts(job), i + 1)
    requires pos == Slot(i, job.capture.rowWidth) && out.Length == |initial|
    requires timestamp == TimeBefore(job.scaling, i)
    requires out[..] == Rendered(initial, job.capture.rowWidth, RowTexts(job), lo, i)
    modifies out
    ensures next == TimeBefore(job.scaling, i + 1)
    ensures out[..] == Rendered(initial, job.capture.rowWidth, RowTexts(job), lo, i + 1)
  {
    var w := job.capture.rowWidth;
    ghost var texts := RowTexts(job);
    SlotMonotone(i, i + 1, w);
    next := timestamp + job.scaling.timeStep;
    var values := ChannelValuesAt(job, i);
    var text := job.format(next, values);
    RowTextsAt(job, i);
    assert text == texts[i];
    ghost var before := out[..];
    EmitRow(out, pos, w, text);
    RenderedNext(initial, w, texts, lo, i, before, out[..]);
  }

  /**
    `conversion_thread`: rows [start, start + length) of the capture, each the
    formatted timestamp and channel values placed in the row's slot, and no
    other byte of the buffer.
  */
  method ConvertChunk(out: array<char>, job: Job, task: Task)
    requires Readable(job) && End(task) <= job.capture.waveLength
    requires Slot(job.capture.waveLength, job.capture.rowWidth) <= out.Length
    modifies out
    ensures Slot(End(task), job.capture.rowWidth) <= out.Length
    ensures out[..] == Rendered(old(out[..]), job.capture.rowWidth, RowTexts(job), task.start, End(task))
  {
    var w := job.capture.rowWidth;
    ghost var texts := RowTexts(job);
    ghost var initial := out[..];
    var sc := job.scaling;
    var pos := OutputOffset(task, w);
    var timestamp := StartTime(sc, task.start);
    var i := task.start;
    SlotMonotone(i, job.capture.waveLength, w);
    while i < task.start + task.length
      invariant task.start <= i <= End(task)
      invariant pos == Slot(i, w)
      invariant Fits(|initial|, w, texts, i)
      invariant timestamp == TimeBefore(sc, i)
      invariant out[..] == Rendered(initial, w, texts, task.start, i)
    {
      SlotMonotone(i + 1, job.capture.waveLength, w);
      timestamp := ConvertRow(out, job, i, pos, timestamp, initial, task.start);
      pos := pos + w;
      i := i + 1;
    }
    assert i == End(task);
    SlotMonotone(i, job.capture.waveLength, w);
  }

  /**
    The task loop of `main`: tasks of `wave_length / 8` samples from index 0
    on, the last cut at `wave_length`, each converted into its own rows. The
    tasks are the ones `Partition.Tasks` describes and together they write
    every row [0, wave_length).
  */
  method ConvertAll(out: array<char>, job: Job) returns (tasks: seq<Task>)
    requires Readable(job) && Partitionable(job.capture.waveLength)
    requires Slot(job.capture.waveLength, job.capture.rowWidth) <= out.Length
    modifies out
    ensures tasks == Tasks(job.capture.waveLength)
    ensures out[..] == Rendered(old(out[..]), job.capture.rowWidth, RowTexts(job), 0, job.capture.waveLength)
  {
    var waveLength := job.capture.waveLength;
    var w := job.capture.rowWidth;
    ghost var texts := RowTexts(job);
    ghost var initial := out[..];
    var maxSize := waveLength / NUM_THREADS;
    assert maxSize > 0 || waveLength == 0;
    var start := 0;
    ghost var done := 0;
    tasks := [];
    while start < waveLength
      invariant maxSize > 0 || waveLength == 0
      invariant done == (if start < waveLength then start else waveLength)
      invariant tasks + TasksFrom(start, waveLength, maxSize) == Tasks(waveLength)
      invariant Fits(|initial|, w, texts, done)
      invariant out[..] == Rendered(initial, w, texts, 0, done)
      decreases waveLength - start
    {
      var task := LaunchTask(out, job, start, maxSize, initial);
      TaskStep(start, waveLength, maxSize, tasks);
      tasks := tasks + [task];
      start := start + maxSize;
      done := End(task);
    }
    assert done == waveLength;
  }

  /**
    One turn of the task loop of `main`: the task of at most `maxSize`
    samples from `start`, cut at `wave_length`, whose `conversion_thread`
    writes its rows after the rows [0, start) already written.
  */
  method LaunchTask(out: array<char>, job: Job, start: nat, maxSize: nat, ghost initial: seq<char>)
    returns (task: Task)
    requires Readable(job) && 0 < maxSize && start < job.capture.waveLength
    requires Slot(job.capture.waveLength, job.capture.rowWidth) <= out.Length == |initial|
    requires Fits(|initial|, job.capture.rowWidth, RowTexts(job), start)
    requires out[..] == Rendered(initial, job.capture.rowWidth, RowTexts(job), 0, start)
    modifies out
    ensures task == Task(start, TaskSize(start, job.capture.waveLength, maxSize))
    ensures Fits(|initial|, job.capture.rowWidth, RowTexts(job), End(task))
    ensures out[..] == Rendered(initial, job.capture.rowWidth, RowTexts(job), 0, End(task))
  {
    var waveLength := job.capture.waveLength;
    var size := TaskSize(start, waveLength, maxSize);
    task := Task(start, size);
    ConvertChunk(out, job, task);
    RenderedCompose(initial, job.capture.rowWidth, RowTexts(job), 0, start, End(task));
  }

  /** One turn of the task loop: the task it creates is the next of `Partition.Tasks`. */
  lemma TaskStep(start: nat, waveLength: nat, maxSize: nat, tasks: seq<Task>)
    requires maxSize > 0 && start < waveLength
    ensures TasksFrom(start, waveLength, maxSize) ==
      [Task(start, TaskSize(start, waveLength, maxSize))]
      + TasksFrom(start + maxSize, waveLength, maxSize)
    ensures tasks + TasksFrom(start, waveLength, maxSize) ==
      (tasks + [Task(start, TaskSize(start, waveLength, maxSize))])
      + TasksFrom(start + maxSize, waveLength, maxSize)
  {
  }

  /** What `malloc(n)` hands back: n bytes of whatever the memory held. */
  function Allocated(n: nat, garbage: nat -> char): (bytes: seq<char>)
    ensures |bytes| == n && forall q :: 0 <= q < n ==> bytes[q] == garbage(q)
  {
    seq(n, q requires 0 <= q < n => garbage(q))
  }

  /**
    The part of `main` after the layout checks: allocate
    `wave_length * csv_line_length + 1` bytes whose initial content is
    `garbage`, convert every row, and keep the first
    `wave_length * csv_line_length` bytes, the ones `fwrite` sends.
  */
  method Render(job: Job, garbage: nat -> char) returns (bytes: seq<char>)
    requires Readable(job) && Partitionable(job.capture.waveLength)
    ensures |bytes| == job.capture.waveLength * job.capture.rowWidth
    ensures RowsOf(bytes, Allocated(job.capture.waveLength * job.capture.rowWidth + 1, garbage), job.capture.rowWidth, RowTexts(job))
  {
    var w := job.capture.rowWidth;
    var n := job.capture.waveLength * w;
    var out := new char[n + 1](q => garbage(q));
    ghost var initial := Allocated(n + 1, garbage);
    assert out[..] == initial;
    SlotIsProduct(job.capture.waveLength, w);
    var tasks := ConvertAll(out, job);
    ghost var texts := RowTexts(job);
    assert out[..] == Rendered(initial, w, texts, 0, |texts|);
    bytes := out[..n];
    RenderedRowsOf(initial, w, texts, n);
  }

  /**
    From the mapped file to the bytes `fwrite` sends to the output: decode and
    check the capture, then render its rows; a capture that fails a check
    gives that check's error and no output.
  */
  method Convert(format: FileFormat, input: seq<Byte>, header: Header, scaling: Scaling,
                 render: Formatter, garbage: nat -> char)
    returns (r: Result<seq<char>, DecodeError>)
    requires |scaling.channelScale| == 4
    requires DecodeChecked(format, input, header).Ok? ==> Partitionable(header.waveLength)
    ensures r.Err? <==> DecodeChecked(format, input, header).Err?
    ensures r.Err? ==> r.error == DecodeChecked(format, input, header).error
    ensures r.Ok? ==>
      var cap := DecodeChecked(format, input, header).value;
      var job := Job(input, cap, scaling, render);
      && JobValid(job)
      && |r.value| == cap.waveLength * cap.rowWidth
      && RowsOf(r.value, Allocated(|r.value| + 1, garbage), cap.rowWidth, RowTexts(job))
  {
    var decoded := DecodeChecked(format, input, header);
    if decoded.Err? {
      return Err(decoded.error);
    }
    var job := Job(input, decoded.value, scaling, render);
    ValidJob(job);
    var bytes := Render(job, garbage);
    r := Ok(bytes);
  }
}
