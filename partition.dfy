/**
  Work partitioning: the task loop of `main` splits the sample indices
  [0, wave_length) into contiguous chunks of `wave_length / NUM_THREADS`
  samples, the last chunk taking whatever is left, and places each chunk's
  rows at byte `start_index * csv_line_length` of the output buffer.
*/
module Partition {
  import opened Arith

  const NUM_THREADS: nat := 8

  const U32_MODULUS: nat := 0x1_0000_0000

  /** One conversion task: rows [start, start + length). */
  datatype Task = Task(start: nat, length: nat)

  /** `maximum_task_size`. */
  function MaxTaskSize(waveLength: nat): nat {
    waveLength / NUM_THREADS
  }

  /** `task_size` for the task starting at `start`: a full chunk, cut short at the end of the wave. */
  function TaskSize(start: nat, waveLength: nat, maxSize: nat): (size: nat)
    requires start < waveLength
    ensures size <= maxSize && start + size <= waveLength
    ensures size == maxSize || start + size == waveLength
  {
    if start + maxSize < waveLength then maxSize else waveLength - start
  }

  /** The tasks the loop creates once `start_index` has reached `start`. */
  function TasksFrom(start: nat, waveLength: nat, maxSize: nat): seq<Task>
    requires maxSize > 0 || start >= waveLength
    decreases waveLength - start
  {
    if start >= waveLength then []
    else [Task(start, TaskSize(start, waveLength, maxSize))] + TasksFrom(start + maxSize, waveLength, maxSize)
  }

  /** Tasks are only defined when the loop advances: an empty wave or at least one sample per thread. */
  predicate Partitionable(waveLength: nat) {
    waveLength == 0 || waveLength >= NUM_THREADS
  }

  function Tasks(waveLength: nat): seq<Task>
    requires Partitionable(waveLength)
  {
    TasksFrom(0, waveLength, MaxTaskSize(waveLength))
  }

  function End(t: Task): nat {
    t.start + t.length
  }

  /** The shape of the tasks created from `start` on, by induction on the remaining samples. */
  lemma {:induction false} TasksFromShape(start: nat, waveLength: nat, maxSize: nat)
    requires maxSize > 0
    ensures |TasksFrom(start, waveLength, maxSize)| == 0 <==> start >= waveLength
    ensures forall k :: 0 <= k < |TasksFrom(start, waveLength, maxSize)| ==>
      TasksFrom(start, waveLength, maxSize)[k].start == start + k * maxSize
    ensures forall k :: 0 <= k < |TasksFrom(start, waveLength, maxSize)| ==>
      1 <= TasksFrom(start, waveLength, maxSize)[k].length <= maxSize
    ensures forall k :: 0 <= k < |TasksFrom(start, waveLength, maxSize)| - 1 ==>
      TasksFrom(start, waveLength, maxSize)[k].length == maxSize
    ensures |TasksFrom(start, waveLength, maxSize)| > 0 ==>
      End(TasksFrom(start, waveLength, maxSize)[|TasksFrom(start, waveLength, maxSize)| - 1]) == waveLength
    decreases waveLength - start
  {
    if start < waveLength {
      var rest := TasksFrom(start + maxSize, waveLength, maxSize);
      var all := TasksFrom(start, waveLength, maxSize);
      TasksFromShape(start + maxSize, waveLength, maxSize);
      assert all == [Task(start, TaskSize(start, waveLength, maxSize))] + rest;
      forall k | 1 <= k < |all|
        ensures all[k].start == start + k * maxSize
      {
        assert all[k] == rest[k - 1];
        assert (k - 1) * maxSize + maxSize == k * maxSize;
      }
      if |rest| > 0 {
        assert start + maxSize < waveLength;
      }
    }
  }

  /**
    When the wave fits the threads, the tasks tile [0, wave_length): the first
    starts at 0, each starts where the previous ends, the last ends at
    wave_length, every task but the last holds `wave_length / 8` samples, and
    none is empty or longer than that.
  */
  lemma TasksTile(waveLength: nat)
    requires Partitionable(waveLength)
    ensures Tasks(waveLength) == [] <==> waveLength == 0
    ensures |Tasks(waveLength)| > 0 ==>
      Tasks(waveLength)[0].start == 0 && End(Tasks(waveLength)[|Tasks(waveLength)| - 1]) == waveLength
    ensures forall k :: 0 <= k < |Tasks(waveLength)| - 1 ==>
      End(Tasks(waveLength)[k]) == Tasks(waveLength)[k + 1].start
    ensures forall k :: 0 <= k < |Tasks(waveLength)| ==>
      1 <= Tasks(waveLength)[k].length <= MaxTaskSize(waveLength)
    ensures forall k :: 0 <= k < |Tasks(waveLength)| - 1 ==>
      Tasks(waveLength)[k].length == MaxTaskSize(waveLength)
  {
    if waveLength > 0 {
      var m := MaxTaskSize(waveLength);
      TasksFromShape(0, waveLength, m);
      var tasks := Tasks(waveLength);
      forall k | 0 <= k < |tasks| - 1
        ensures End(tasks[k]) == tasks[k + 1].start
      {
        assert k * m + m == (k + 1) * m;
      }
    }
  }

  /** No two tasks share a sample. */
  lemma TasksDisjoint(waveLength: nat, j: nat, k: nat)
    requires Partitionable(waveLength)
    requires j < k < |Tasks(waveLength)|
    ensures End(Tasks(waveLength)[j]) <= Tasks(waveLength)[k].start
  {
    var m := MaxTaskSize(waveLength);
    TasksFromShape(0, waveLength, m);
    MulMonotone(m, j + 1, k);
    assert j * m + m == (j + 1) * m;
  }

  /** Every sample index below wave_length belongs to exactly one task. */
  lemma TasksCover(waveLength: nat, i: nat) returns (k: nat)
    requires Partitionable(waveLength)
    requires i < waveLength
    ensures k < |Tasks(waveLength)|
    ensures Tasks(waveLength)[k].start <= i < End(Tasks(waveLength)[k])
    ensures forall k' :: 0 <= k' < |Tasks(waveLength)| && Tasks(waveLength)[k'].start <= i < End(Tasks(waveLength)[k']) ==> k' == k
  {
    var tasks := Tasks(waveLength);
    TasksTile(waveLength);
    k := CoverInChain(tasks, 0, waveLength, i);
    forall k' | 0 <= k' < |tasks| && tasks[k'].start <= i < End(tasks[k'])
      ensures k' == k
    {
      if k' < k {
        TasksDisjoint(waveLength, k', k);
      } else if k < k' {
        TasksDisjoint(waveLength, k, k');
      }
    }
  }

  /** A contiguous chain of intervals from lo to hi covers every point in between. */
  lemma {:induction false} CoverInChain(tasks: seq<Task>, lo: nat, hi: nat, i: nat) returns (k: nat)
    requires |tasks| > 0 && tasks[0].start == lo && End(tasks[|tasks| - 1]) == hi
    requires forall k :: 0 <= k < |tasks| - 1 ==> End(tasks[k]) == tasks[k + 1].start
    requires lo <= i < hi
    ensures k < |tasks| && tasks[k].start <= i < End(tasks[k])
  {
    if i < End(tasks[0]) {
      k := 0;
    } else {
      var rest := tasks[1..];
      assert |tasks| > 1;
      assert forall k :: 0 <= k < |rest| - 1 ==> End(rest[k]) == rest[k + 1].start by {
        forall k | 0 <= k < |rest| - 1 ensures End(rest[k]) == rest[k + 1].start {
          assert rest[k] == tasks[k + 1] && rest[k + 1] == tasks[k + 2];
        }
      }
      var j := CoverInChain(rest, End(tasks[0]), hi, i);
      k := j + 1;
    }
  }

  /**
    The loop makes between 8 and 15 tasks: `wave_length / 8` samples per task
    leave a remainder of up to 7 samples, which become up to 7 more tasks.
  */
  lemma TaskCount(waveLength: nat)
    requires waveLength >= NUM_THREADS
    ensures NUM_THREADS <= |Tasks(waveLength)| <= 2 * NUM_THREADS - 1
  {
    var m := MaxTaskSize(waveLength);
    var tasks := Tasks(waveLength);
    var n := |tasks|;
    TasksFromShape(0, waveLength, m);
    var last := tasks[n - 1];
    assert last.start == (n - 1) * m;
    assert last.start < waveLength <= last.start + m;
    assert 8 * m <= waveLength < 8 * m + 8;
    MulSucc(n - 1, m);
    // n * m >= waveLength >= 8 * m, hence n >= 8
    if n < 8 {
      MulMonotone(m, n, 7);
      assert false;
    }
    // 15 * m <= (n - 1) * m < 8 * m + 8 with m >= 1, hence n <= 15
    if n >= 16 {
      MulMonotone(m, 15, n - 1);
      assert false;
    }
  }

  /** Fifteen samples make fifteen one-sample tasks, not eight. */
  lemma FifteenSamplesMakeFifteenTasks()
    ensures |Tasks(15)| == 15
    ensures forall k :: 0 <= k < 15 ==> Tasks(15)[k] == Task(k, 1)
  {
    TasksFromShape(0, 15, 1);
  }

  /**
    A hundred samples: eight full tasks of `100 / 8` = 12 samples, and the
    four samples left over packed into one more task.
  */
  lemma HundredSamplesMakeNineTasks()
    ensures |Tasks(100)| == 9
    ensures forall k :: 0 <= k < 8 ==> Tasks(100)[k] == Task(12 * k, 12)
    ensures Tasks(100)[8] == Task(96, 4)
  {
    TasksFromShape(0, 100, 12);
  }

  /**
    With fewer samples than threads `maximum_task_size` is 0: the first pass of
    the loop makes an empty task and leaves `start_index` where it was.
  */
  lemma TaskLoopStallsOnShortWave(waveLength: nat)
    requires 1 <= waveLength < NUM_THREADS
    ensures MaxTaskSize(waveLength) == 0
    ensures TaskSize(0, waveLength, MaxTaskSize(waveLength)) == 0
  {
  }

  /** Byte offset of a task's first row in the output buffer (`output_pointer + start_index * csv_line_length`). */
  function OutputOffset(t: Task, rowWidth: nat): (offset: nat)
    ensures offset == Slot(t.start, rowWidth)
  {
    SlotIsProduct(t.start, rowWidth);
    t.start * rowWidth
  }

  /**
    The tasks' output regions [start * w, (start + length) * w) are pairwise
    disjoint: no two tasks write the same byte.
  */
  lemma TaskRegionsDisjoint(waveLength: nat, rowWidth: nat, j: nat, k: nat)
    requires Partitionable(waveLength)
    requires j < k < |Tasks(waveLength)|
    ensures OutputOffset(Tasks(waveLength)[j], rowWidth) + Tasks(waveLength)[j].length * rowWidth
      <= OutputOffset(Tasks(waveLength)[k], rowWidth)
  {
    var a, b := Tasks(waveLength)[j], Tasks(waveLength)[k];
    TasksDisjoint(waveLength, j, k);
    MulMonotone(rowWidth, End(a), b.start);
    assert a.start * rowWidth + a.length * rowWidth == End(a) * rowWidth;
  }

  /** The task whose output region holds byte p of the buffer. */
  predicate RegionHolds(t: Task, rowWidth: nat, p: nat) {
    OutputOffset(t, rowWidth) <= p < OutputOffset(t, rowWidth) + t.length * rowWidth
  }

  /** Every byte of [0, wave_length * w) lies in the output region of exactly one task. */
  lemma TaskRegionsCover(waveLength: nat, rowWidth: nat, p: nat) returns (k: nat)
    requires Partitionable(waveLength)
    requires rowWidth > 0
    requires p < waveLength * rowWidth
    ensures k < |Tasks(waveLength)| && RegionHolds(Tasks(waveLength)[k], rowWidth, p)
    ensures forall k' :: 0 <= k' < |Tasks(waveLength)| && RegionHolds(Tasks(waveLength)[k'], rowWidth, p) ==> k' == k
  {
    var tasks := Tasks(waveLength);
    var row := RowOfByte(waveLength, rowWidth, p);
    k := TasksCover(waveLength, row);
    TaskRegionHoldsRow(tasks[k], rowWidth, row, p);
    forall k' | 0 <= k' < |tasks| && RegionHolds(tasks[k'], rowWidth, p)
      ensures k' == k
    {
      if k' < k {
        TaskRegionsDisjoint(waveLength, rowWidth, k', k);
      } else if k < k' {
        TaskRegionsDisjoint(waveLength, rowWidth, k, k');
      }
    }
  }

  /** Byte p of a buffer of n rows of w bytes lies in row p / w. */
  lemma RowOfByte(n: nat, rowWidth: nat, p: nat) returns (row: nat)
    requires rowWidth > 0 && p < n * rowWidth
    ensures row < n && row * rowWidth <= p < row * rowWidth + rowWidth
  {
    row := p / rowWidth;
    assert row * rowWidth <= p < row * rowWidth + rowWidth;
    if row >= n {
      MulMonotone(rowWidth, n, row);
    }
  }

  lemma TaskRegionHoldsRow(t: Task, rowWidth: nat, row: nat, p: nat)
    requires t.start <= row < End(t)
    requires row * rowWidth <= p < row * rowWidth + rowWidth
    ensures RegionHolds(t, rowWidth, p)
  {
    MulMonotone(rowWidth, t.start, row);
    MulMonotone(rowWidth, row + 1, End(t));
    assert row * rowWidth + rowWidth == (row + 1) * rowWidth;
    assert t.start * rowWidth + t.length * rowWidth == End(t) * rowWidth;
  }

  /** `wave_length * csv_line_length` as the source computes it, in 32-bit unsigned arithmetic. */
  function BufferLengthAsWritten(waveLength: nat, rowWidth: nat): (n: nat)
    ensures n < U32_MODULUS
    ensures waveLength * rowWidth < U32_MODULUS ==> n == waveLength * rowWidth
  {
    (waveLength * rowWidth) % U32_MODULUS
  }

  /** `wave_length * csv_line_length + 1`, the size `malloc` receives, in 32-bit unsigned arithmetic. */
  function MallocSizeAsWritten(waveLength: nat, rowWidth: nat): (n: nat)
    ensures n < U32_MODULUS
    ensures waveLength * rowWidth + 1 < U32_MODULUS ==> n == waveLength * rowWidth + 1
    ensures n == (BufferLengthAsWritten(waveLength, rowWidth) + 1) % U32_MODULUS
  {
    (waveLength * rowWidth + 1) % U32_MODULUS
  }

  /**
    Four channels and 84215045 samples: the product, 2^32 - 1, does not wrap,
    so all of it is written out, but the allocation size wraps round to 0.
  */
  lemma MallocSizeWrapsToZero()
    ensures 84215045 * 51 == U32_MODULUS - 1
    ensures BufferLengthAsWritten(84215045, 51) == 84215045 * 51
    ensures MallocSizeAsWritten(84215045, 51) == 0
  {
  }

  /** One channel and 159072863 samples: the buffer size wraps round to 5 bytes. */
  lemma BufferLengthWraps()
    ensures 159072863 * 27 == 4294967301
    ensures BufferLengthAsWritten(159072863, 27) == 5
  {
  }
}
