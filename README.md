# siglent2csv, modelled in Dafny

`siglent2csv` turns the binary waveform file that a Siglent oscilloscope saves
from its web interface into a CSV file, one row per sample index. Each row holds
the sample's timestamp and the scaled values of the enabled analog channels.

The program runs in four steps:

1. It maps the input file.
2. It reads the header fields at fixed offsets.
3. It lays out the raw sample blocks of the enabled channels one after the other,
   after the analog-data offset.
4. It picks a fixed row width (`csv_line_length`) for the number of enabled
   channels, allocates `wave_length * csv_line_length + 1` output bytes, and has
   up to fifteen threads each fill the rows of one contiguous chunk of sample
   indices. It then writes the first `wave_length * csv_line_length` bytes to the
   output file.

The model covers the following, one module each:

- `Units`: the unit tables and their three lookups (`unit_magnitude_prefix`,
  `unit_name`, `unit_divider`).
- `Layout`: the parsing and layout part of `main`. This is the header size
  check, the walk over the four channel flags that places each enabled channel's
  block, the "no channels" check and the choice of the row width.
- `Partition`: the task loop of `main`. It splits the samples into chunks of
  `wave_length / 8` and places each chunk's rows in the output buffer.
- `Rows`: the specification of the output. It covers sample values, timestamps,
  what `snprintf` and the trailing newline leave in a row slot, and the buffer
  after a range of rows has been written.
- `Conversion`: the imperative code. `conversion_thread` becomes a method with a
  loop over an `array<char>` output buffer. The task loop of `main` becomes a
  method that runs each task, and `Convert` is the whole pipeline: decode,
  check, allocate, convert and keep the bytes written out.
- `Arith` and `Wrappers`: row offsets defined by stepping `csv_line_length`
  bytes per row, and the `Option` and `Result` types.

Terms used below:

- A *slot* is the `csv_line_length` bytes of the output buffer that belong to
  one row.
- `Partitionable(wave_length)` holds when `wave_length` is 0 or at least 8.
- `DataInBounds` holds when the input holds every enabled channel's block of
  samples.
- `Formatter` stands for the format string. The model applies it to the
  timestamp and the channel values and leaves the resulting text unspecified.

The units, the layout, the task loop and `conversion_thread` are modelled as
written. `Conversion.Convert` and `Conversion.Render` model the corrected
pipeline of the two findings below. A file too short for its channel blocks
is rejected with `DataTruncated`, an error the source does not have. The buffer
holds exactly `wave_length * csv_line_length + 1` bytes, computed without
32-bit wrap-around. Three points of the code differ from what a reader might
expect:

- A row is not padded to its full width. `snprintf` writes the text and a NUL,
  and the row's last byte becomes `'\n'`. Any bytes between the NUL and the
  newline keep what `malloc` left there. The model keeps those bytes as an
  unknown initial buffer.
- The loop does not always make 8 tasks. Eight tasks of `wave_length / 8`
  samples leave a remainder r of up to 7 samples. The loop packs these into
  ⌈r / (`wave_length / 8`)⌉ more tasks of up to `wave_length / 8` samples each.
  That is at most 7 more, and 7 only when `wave_length / 8` is 1. So the loop
  makes between 8 and 15 tasks and threads (`Partition.TaskCount`). For example,
  100 samples make 8 tasks of 12 and one of 4
  (`Partition.HundredSamplesMakeNineTasks`), and 15 samples make 15 one-sample
  tasks.
- With 1 to 7 samples, `maximum_task_size` is 0 and `start_index` never
  advances, so the loop never ends (`Partition.TaskLoopStallsOnShortWave`).

## Model

| member | source | states |
|---|---|---|
| `Units.UnitMagnitudePrefix` | siglent2csv.c:160-165 | the prefix is an entry of `units_magnitude_prefixes` and has at most one character |
| `Units.UnitName` | siglent2csv.c:167-172 | the name is "" or one of the entries of `units_names` |
| `Units.UnitDivider` | siglent2csv.c:174-179 | the divider is 10^e, with e a multiple of 3 between -15 and 24 |
| `Units.MagnitudeTablesAligned` | siglent2csv.c:154-158 | the prefix table and the divider table both have 14 entries; entry 8 is "no prefix" and its divider is 1.0 |
| `Units.DividerIsPowerOfThousand` | siglent2csv.c:158-179 | code k < 14 gives the divider 10^(24 - 3k); every other code gives 1.0 |
| `Units.DividerCancelsPrefix` | siglent2csv.c:154-179 | for every code, the divider's exponent is the negated power of ten of the prefix for the same code, so dividing by it converts a prefixed quantity to base units |
| `Units.NoPrefixIffUnitDivider` | siglent2csv.c:160-179 | the prefix is "" exactly when the divider is 1.0, and the divider is 1.0 exactly for code 8 and codes past the table |
| `Units.UnknownUnitIffEmptyName` | siglent2csv.c:167-172 | the name is "" exactly for codes past the table; below that it is the table entry |
| `Layout.EnabledChannelsMembers` | siglent2csv.c:344-363 | a channel is among the enabled ones exactly when its flag is nonzero, and the enabled channels come in increasing channel order |
| `Layout.AssignChannelBlocks` | siglent2csv.c:338-363 | the four-step walk gives each enabled channel the block at the current counter and no block to a disabled one; `enabled_analog_channels` is the number of nonzero flags; the final counter is the data offset plus `enabled * wave_length` |
| `Layout.RowWidth` | siglent2csv.c:372-387 | `csv_line_length` is 19 bytes plus 8 per enabled channel (27, 35, 43, 51) |
| `Layout.Decode` | siglent2csv.c:220-387 | `InputTooSmall` exactly when the input is shorter than the header; `NoChannelsEnabled` exactly when it is long enough and all four flags are 0; otherwise a consistent capture with the header's flags, its `wave_length` and the analog-data offset; never `DataTruncated` |
| `Layout.DecodeCapture` | siglent2csv.c:220-387 | the parsing steps of `main`, run in order, give exactly `Decode`'s result |
| `Layout.NoChannelsIffAllOff` | siglent2csv.c:343-371 | `enabled_analog_channels` is 0 exactly when every `chN_on` flag is 0 |
| `Layout.EnabledChannelsRank` | siglent2csv.c:344-363 | the channels enabled before the j-th enabled channel are exactly the first j enabled channels |
| `Layout.ChannelBlockOffset` | siglent2csv.c:342-363 | the j-th enabled channel's block starts `j * wave_length` bytes after the analog-data offset |
| `Layout.BlockStartStep` | siglent2csv.c:344-363 | past a disabled channel the counter does not move; past an enabled one it moves by `wave_length` |
| `Layout.BlocksDisjoint` | siglent2csv.c:344-363 | the blocks of two different enabled channels do not overlap |
| `Layout.BlockSetIffEnabled` | siglent2csv.c:338-363 | in a decoded capture, a channel has a block exactly when it is enabled, at the counter the walk reached |
| `Layout.BlockWithinData` | siglent2csv.c:342-363 | an enabled channel's block lies between the data offset and the data offset plus `enabled * wave_length` |
| `Layout.DecodeAcceptsTruncatedInput` | siglent2csv.c:220-363 | a 16-byte file with CH1 on and `wave_length` 100 is accepted, although its block lies outside the file; `DecodeChecked` rejects it |
| `Layout.DecodeChecked` | siglent2csv.c:342-363 | succeeds exactly when `Decode` succeeds and the data is in bounds, and then gives `Decode`'s capture, every enabled block inside the input; a capture that `Decode` accepts but whose data is out of bounds gives `DataTruncated`; `Decode`'s errors are kept |
| `Partition.TaskSize` | siglent2csv.c:424-429 | `task_size` is at most `maximum_task_size`, stays inside the wave, and is either the full size or reaches `wave_length` |
| `Partition.TasksFromShape` | siglent2csv.c:418-461 | the tasks from `start` on: there are none exactly when `start >= wave_length`; the k-th starts at `start + k * maximum_task_size`; each has 1 to `maximum_task_size` samples; all but the last are full; the last ends at `wave_length` |
| `Partition.TasksTile` | siglent2csv.c:418-461 | the tasks tile [0, `wave_length`): none for an empty wave; the first starts at 0; each starts where the previous ends; the last ends at `wave_length`; all but the last have `wave_length / 8` samples; none is empty |
| `Partition.TasksDisjoint` | siglent2csv.c:418-461 | an earlier task ends no later than a later task starts |
| `Partition.TasksCover` | siglent2csv.c:418-461 | every sample index below `wave_length` is in exactly one task |
| `Partition.TaskCount` | siglent2csv.c:418-461 | for `wave_length >= 8` the loop makes between 8 and 15 tasks |
| `Partition.FifteenSamplesMakeFifteenTasks` | siglent2csv.c:418-461 | 15 samples make 15 tasks of one sample each |
| `Partition.HundredSamplesMakeNineTasks` | siglent2csv.c:418-461 | 100 samples make 8 tasks of 12 samples, then one task of the 4 left over |
| `Partition.TaskLoopStallsOnShortWave` | siglent2csv.c:418-424 | for 1 to 7 samples `maximum_task_size` is 0 and the first task is empty, so `start_index += maximum_task_size` leaves it at 0 |
| `Partition.OutputOffset` | siglent2csv.c:447 | a task's `output_pointer` is its start row's slot, `start_index` rows of `csv_line_length` bytes into the buffer |
| `Partition.TaskRegionsDisjoint` | siglent2csv.c:445-447 | the byte ranges of two different tasks do not overlap |
| `Partition.TaskRegionsCover` | siglent2csv.c:397-447 | every byte below `wave_length * csv_line_length` is in the byte range of exactly one task |
| `Partition.BufferLengthAsWritten` | siglent2csv.c:398 | the write length is computed modulo 2^32; it equals the exact product when that is below 2^32 |
| `Partition.BufferLengthWraps` | siglent2csv.c:397-398 | one channel and 159072863 samples: 4294967301 bytes are needed, and 5 are computed |
| `Partition.MallocSizeAsWritten` | siglent2csv.c:397 | the size passed to `malloc` is the product plus one, computed modulo 2^32; it is exact when below 2^32, and it is the wrapped write length plus one, wrapped again |
| `Partition.MallocSizeWrapsToZero` | siglent2csv.c:397-398 | four channels and 84215045 samples: the write length 2^32 - 1 is exact, but `malloc` is asked for 0 bytes |
| `Arith.SlotIsProduct` | siglent2csv.c:125 | advancing `output_pointer` by `csv_line_length` once per row reaches row i at `i * csv_line_length` |
| `Rows.ValidJob` | siglent2csv.c:338-363 | for a checked capture with four scaling factors, every enabled channel's block of samples lies in the input |
| `Rows.SampleValue` | siglent2csv.c:90-108 | raw code 128 is 0; with a positive scale the value is positive exactly above 128 and negative exactly below |
| `Rows.TimeBeforeClosedForm` | siglent2csv.c:84-87 | after stepping i times from `time_offset` the timestamp is `time_offset + i * time_scaling_factor` |
| `Rows.TimestampClosedForm` | siglent2csv.c:84-87 | row i is stamped `time_offset + (i + 1) * time_scaling_factor`, one step after row i - 1 |
| `Rows.ChannelValuesInOrder` | siglent2csv.c:89-109 | there is one value per enabled channel so far, in channel order, each the scaled raw code of its own channel |
| `Rows.ChannelValueSource` | siglent2csv.c:89-109 | row i has `enabled_analog_channels` values; the j-th is byte `data offset + j * wave_length + i` of the input, scaled by the factor of the j-th enabled channel |
| `Rows.RowBytesShape` | siglent2csv.c:111-123 | after `snprintf` and the newline, the slot's last byte is `'\n'`; a text of `csv_line_length - 1` characters or more is cut to that length; a shorter text is followed by a NUL, and the bytes after the NUL are unchanged |
| `Rows.RowTextsAt` | siglent2csv.c:86-122 | entry i of the row texts is the format applied to row i's timestamp and channel values |
| `Rows.RenderedOutside` | siglent2csv.c:86-125 | writing a range of rows leaves every byte outside their slots unchanged |
| `Rows.RowOutsideUnchanged` | siglent2csv.c:86-125 | a row outside the written range is the same before and after |
| `Rows.RenderedRow` | siglent2csv.c:86-125 | row i of the written range is what one iteration makes of that row's old slot and row i's text |
| `Rows.RenderedCompose` | siglent2csv.c:418-461 | writing rows [lo, mid) and then [mid, hi) is writing rows [lo, hi) |
| `Rows.RenderedRowsOf` | siglent2csv.c:397-398 | once every row is written and the buffer is cut after the last row, it holds exactly one row per sample |
| `Rows.RenderedCommute` | siglent2csv.c:455-465 | two disjoint ranges of rows written in either order give the same buffer, so the order in which threads finish does not matter |
| `Conversion.ChannelValuesAt` | siglent2csv.c:89-109 | the four `if (chN_on)` tests yield the specified channel values of sample i |
| `Conversion.EmitRow` | siglent2csv.c:111-123 | after `snprintf` and the newline, the row's slot holds what `snprintf` and the newline make of its old bytes; every other byte is unchanged |
| `Conversion.StartTime` | siglent2csv.c:84 | the starting `timestamp` of a task is the timestamp that stepping from row 0 would reach at its start row |
| `Conversion.ConvertRow` | siglent2csv.c:86-125 | one iteration advances `timestamp` by one step and extends the written rows by row i |
| `Conversion.ConvertChunk` | siglent2csv.c:60-129 | `conversion_thread` writes exactly rows [start, start + length) of the buffer, each into its own slot |
| `Conversion.LaunchTask` | siglent2csv.c:423-460 | one turn of the loop makes the task of the next chunk, cut at `wave_length`, and its conversion extends the written rows to the end of that task |
| `Conversion.ConvertAll` | siglent2csv.c:418-461 | the loop makes exactly the specified tasks, and together they write every row [0, `wave_length`) |
| `Conversion.Render` | siglent2csv.c:397-461 | the bytes written out are `wave_length * csv_line_length` long and hold one row per sample, each made from that row's slot of the freshly allocated buffer |
| `Conversion.Convert` | siglent2csv.c:220-461 | fails exactly when the checked decoding fails, with the same error (`InputTooSmall`, `NoChannelsEnabled` or `DataTruncated`); otherwise the job is valid and the output is one row per sample, exact in length |

## Left out

- Argument handling, opening, `fstat` and memory-mapping of the input (lines 184-243), and opening and writing the output (lines 470-480): these are I/O. The input is a byte sequence, and the result is the bytes handed to `fwrite`.
- The header fields are read by pointer casts at fixed offsets (lines 244-337). The model receives them already read, as a `Header`, and keeps the header size and the analog-data offset symbolic (`FileFormat`).
- The digital channels appear only in commented-out code (lines 282-301). The vertical offsets are read (lines 266-280) and printed (lines 325-336) but never applied to the values: their addition survives only in the commented-out lines 91, 96, 101 and 106. Their reading and printing are left out with the header reads and the `printf` output.
- The `printf` reporting of header information and timings, and `clock_gettime`: output and clocks only.
- The computation of `chN_scaling_factor`, `time_offset` and `time_scaling_factor` (lines 389-395): this is floating-point arithmetic. The model takes the results as a `Scaling` of reals. `Units.UnitDivider` gives the divider as a decimal exponent instead of a double.
- All floating point. Timestamps and channel values are reals, so rounding and the accumulated error of `timestamp += time_scaling_factor` are not modelled.
- The text `snprintf` makes from a format string and doubles is an opaque `Formatter`. The four-way choice between format strings (lines 111-122) becomes a single call that receives all enabled channel values. How `snprintf` places its text in a slot is modelled exactly.
- Threads: each task runs to completion where `main` creates its thread. `Rows.RenderedCommute` and `Partition.TaskRegionsDisjoint` show that the order of completion cannot change the buffer. The linked list of tasks, the `pthread_join` loop and the freeing of tasks are left out.
- 32-bit arithmetic on `start_index`, `start_index + maximum_task_size`, `start_index + length` and `start_index * csv_line_length` is modelled as unbounded. It wraps only for waves whose buffer size, a finding below, has already wrapped.
- `Conversion.Convert`: requires `Partitionable(wave_length)` only for captures that the checked decoding accepts, because for 1 to 7 samples the source loop never ends (`Partition.TaskLoopStallsOnShortWave`). Inputs rejected before the loop are converted to their error whatever their `wave_length`.
- `malloc` is modelled as `Conversion.Allocated`: n bytes of unknown content, given as the parameter `garbage`. A failed allocation (a NULL result) is not modelled, and nothing in the source checks for one.
- `Conversion.Convert`: converts only captures that `Layout.DecodeChecked` accepts. For a capture whose blocks run past the end of the file, the source reads beyond the mapping, and that behaviour is not modelled (first finding).

## Findings

| source | as written | input that shows it | evidently intended | confidence | as-written member | corrected member |
|---|---|---|---|---|---|---|
| siglent2csv.c:342-363 | channel blocks are placed from the header's `wave_length` without checking that the file holds `enabled * wave_length` bytes after the analog-data offset | a file of exactly the header's size, CH1 on, `wave_length` 100 | reject a file too short for its channel blocks | not executed | `Layout.DecodeAcceptsTruncatedInput` | `Layout.DecodeChecked` |
| siglent2csv.c:397-398 | `wave_length * csv_line_length` is computed in 32-bit unsigned arithmetic for the write length, and so is `wave_length * csv_line_length + 1` for the `malloc` size; each wraps on its own | one channel (27 bytes per row) and `wave_length` 159072863: 4294967301 wraps to 5; four channels (51 bytes per row) and `wave_length` 84215045: the write length 4294967295 is exact but `malloc` gets 0 | a buffer of exactly `wave_length` rows plus the final NUL | not executed | `Partition.BufferLengthWraps`, `Partition.MallocSizeWrapsToZero` | `Conversion.Render` |
