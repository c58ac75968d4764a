# Power profiler acquisition engine, in Dafny

This project models the acquisition engine of the power profiler: class `Probe` in
`power_profiler/power_profiler.py`, the thread that talks to the USB current probe.
The model covers five parts:

- **ConfigWord** (`config.dfy`) builds the configuration word the program passes as
  the serial "baud rate" (`BAUDRATE`). Its partner is the firmware's field-by-field
  read-back.
- **FrameDecoder** (`frame.dfy`) decodes one read of up to 16 bytes.
  - A read holds eight two-byte slots.
  - A slot whose channel has any of the bits `0x38` set is skipped.
  - A good slot yields a 10-bit reading.
  - A read shorter than 16 bytes stops at the first byte it lacks.
  - The decoder is checked against a slot-by-slot reference view and against a slot
    encoder.
- **Calibration** (`calibration.dfy`) covers `BETA` and the zero-load offset.
  - Its partners are monotonicity and injectivity lemmas.
  - It also has an inverse that recovers the raw reading.
- **SampleBuffer** (`sample_buffer.dfy`) is the sample store as the values it holds.
  - It covers `process` and `index_inc`: the array doubles below `MAX_HISTORY` and
    keeps its newest half at `MAX_HISTORY`.
  - It is related to appending a history of records.
  - It is given a closed form for a new store: the newest `ResidentLength(m)` records,
    with a predicted width.
  - It is shown to keep the columns in increasing count order.
- **SampleArray** (`sample_array.dfy`) is the same store laid out as the program keeps
  it: one array, `index` and `n`. It has a refinement lemma per step showing that the
  array-level `process` is `SampleBuffer.Process` on `data[:, :index]`.
- **DeviceLink** (`device.dfy`) covers the port search and the control bytes.
- **Acquisition** (`acquisition.dfy`) covers the thread itself:
  - the probe's state;
  - the gain setter, which queues a command;
  - one turn of the read loop (`LoopTurn`);
  - a whole session from `start()` to teardown (`Session`).

In a session, the window thread's actions are a script of events: gain requests, loop
turns with what the read returned, and stop requests. A reference over the script's
events says how the loop should end, how many commands it should send, and which
currents it should store. The session method is proved against that reference:

- The loop ends as the first event that ends it says.
  - A stop request gives `Stopped`.
  - An `IOError` gives `ReadFailed` and error 2.
  - A `ValueError` gives `Aborted` once a read of the session has returned. On the
    first turn it gives `Crashed`, because the handler's `print(raw)` then raises
    `UnboundLocalError` and the thread dies (see "## Findings").
  - A short read that raises `IndexError` gives `Crashed`.
  - When no event ends the loop, the session is still running.
- Every turn the loop runs while a command is waiting sends exactly one command. Commands
  go out oldest first.
- The bytes written are exactly `s`, the gain digit and `g`, then the commands sent,
  then `e`. The `e` is missing when the thread died of an uncaught exception: an
  `IndexError`, or that `UnboundLocalError`.
- Error 1 is signalled when no probe is found.
- The store receives, for every turn the loop runs, that read's readings. Each reading
  is calibrated with the gain in effect and stored as `AVERAGE_N` samples.

Points of the program's behaviour that the model follows closely:

- **Config word layout.** The enable flag is bit 30 (`0x40000000`), not bit 31. Gain
  select is bit 29 alone, and bit 31 is clear.
- **Gain used for calibration.** Readings are calibrated with the gain that was the
  latest request when the last command went out (line 94). This is not necessarily
  the gain of the command sent. The two differ when several requests are queued.
- **Offset sign.** The offset `0.0165` is subtracted from any positive product. It can
  therefore make a reading negative: a raw reading of 1 on range 1 gives about
  -0.0052 mA.
- **Short reads.** A read of 1 to 15 bytes raises `IndexError` at the first byte the
  slot loop indexes and the read lacks.
  - Nothing catches that `IndexError`.
  - The readings of the slots before that byte have already been stored.
  - The thread then dies without writing `e` or closing the port. The model calls
    this outcome `Crashed`.
  - A bad slot is skipped before its second byte is indexed (lines 101-104). So a
    15-byte read whose last slot is bad completes normally with at most seven
    readings.
- **Closing byte.** The byte sent before closing the port is `e` (exit).

## Model

| member | source | states |
|---|---|---|
| ConfigWord.Pack | power_profiler/power_profiler.py:36 | bit 31 of the word is clear, the enable flag (bit 30) is set, bits 26-28 hold 7, and the firmware's read-back of the word recovers gain, averaging exponent and sample rate exactly |
| ConfigWord.PackInjective | power_profiler/power_profiler.py:36 | two different settings never produce the same word |
| ConfigWord.PackFieldsDisjoint | power_profiler/power_profiler.py:36 | the or-ed fields occupy disjoint bits, so the word is also their sum |
| ConfigWord.BaudrateValue | power_profiler/power_profiler.py:31-36 | the shipped BAUDRATE is 0x5C10EA60 and reads back as gain 0, averaging exponent 1, rate 60000 Hz |
| FrameDecoder.SlotValue | power_profiler/power_profiler.py:106 | the reading is the second byte times 4 plus the top two bits of the first byte, and is below 1024 |
| FrameDecoder.DecodeSlot | power_profiler/power_profiler.py:99-106 | a slot yields a reading exactly when its first byte has none of the bits 0x38, and that reading is b1*4 + b0/64 |
| FrameDecoder.SlotRoundTrip | power_profiler/power_profiler.py:99-106 | decoding the slot a device sends for reading v on channel ch gives back v on every good channel and nothing on every bad one |
| FrameDecoder.DecodeFrom | power_profiler/power_profiler.py:95-106 | from any slot on, at most one reading per remaining slot, each below 1024, and a read of 16 bytes is never cut short |
| FrameDecoder.Decode | power_profiler/power_profiler.py:95-106 | a read gives the readings of its good complete slots in slot order, each below 1024, at most eight. A read of 16 bytes never raises IndexError. A shorter read raises it exactly unless it has 15 bytes and its last slot is bad |
| FrameDecoder.DecodeFromIsPresentSlots | power_profiler/power_profiler.py:99-106 | decoding any read from slot j on gives the readings of the good complete slots from j on, in slot order |
| FrameDecoder.CorruptSlotIsSkipped | power_profiler/power_profiler.py:100-104 | corrupting the channel of one slot removes exactly that slot's reading and leaves the others in place |
| FrameDecoder.AllGoodFrame | power_profiler/power_profiler.py:99-106 | a frame of eight good slots gives eight readings, the k-th from bytes 2k and 2k+1 |
| Calibration.Beta | power_profiler/power_profiler.py:28-38 | BETA[g] is positive and times the amplifier gain of its range (1.98 or 119.52) gives 1.3524 |
| Calibration.Calibrate | power_profiler/power_profiler.py:107-109 | a zero reading gives 0, a positive one gives raw*BETA[g] - 0.0165; the result never exceeds raw*BETA[g] and never falls below -0.0165 |
| Calibration.OffsetCanFlipSign | power_profiler/power_profiler.py:107-109 | reading 1 on range 1 calibrates to a negative current, while on range 0 it stays positive |
| Calibration.CalibrateMonotone | power_profiler/power_profiler.py:107-109 | positive readings keep their strict order after calibration |
| Calibration.NeverZero | power_profiler/power_profiler.py:107-109 | no positive reading calibrates to exactly zero |
| Calibration.CalibrateInjective | power_profiler/power_profiler.py:107-109 | distinct readings on one range give distinct currents |
| Calibration.UncalibrateInverts | power_profiler/power_profiler.py:107-109 | the raw reading can be recovered from the current and the range |
| DeviceLink.SelectPort | power_profiler/power_profiler.py:55-62 | the chosen port is the first whose upper-cased hardware id starts with USB VID:PID=0D28:0204; none is chosen exactly when no port matches |
| DeviceLink.IsProbeIgnoresCase | power_profiler/power_profiler.py:56 | a port matches exactly when its id has at least 21 characters and they spell the signature in any mix of ASCII cases |
| SampleBuffer.Init | power_profiler/power_profiler.py:48-50 | a new store is valid, 4096 columns wide, with no valid columns and count 0 |
| SampleBuffer.CapacityIsPowerOfTwo | power_profiler/power_profiler.py:145-148 | the widths the array can take are exactly 4096 * 2^k for k from 0 to 8, the last being MAX_HISTORY |
| SampleBuffer.Append | power_profiler/power_profiler.py:140-153 | writing a column and advancing the index keeps the width allowed and a free column after the valid ones, and leaves the count alone |
| SampleBuffer.AppendFacts | power_profiler/power_profiler.py:140-153 | the new record is last; the valid columns are a suffix of the old ones plus the record; below MAX_HISTORY nothing is lost; at MAX_HISTORY exactly the newest half remains; the width changes only when a write fills an array below MAX_HISTORY, and then doubles |
| SampleBuffer.ResidentIsSuffix | power_profiler/power_profiler.py:140-153 | after any run of appends the valid columns are the newest of the old columns followed by the new records, in order |
| SampleBuffer.ShapeFromEmpty | power_profiler/power_profiler.py:140-153 | after m appends to an empty store of width 4096, the number of valid columns and the width are the closed forms ResidentLength(m) and CapacityAfter(m) |
| SampleBuffer.AppendsFromInit | power_profiler/power_profiler.py:140-153 | after m appends to a new store the valid columns are exactly the newest ResidentLength(m) records: all of them below MAX_HISTORY, between half of MAX_HISTORY and all of it afterwards |
| SampleBuffer.AppendAllConcat | power_profiler/power_profiler.py:140-153 | appending one history and then another is appending their concatenation |
| SampleBuffer.Columns | power_profiler/power_profiler.py:156-165 | process writes one column, or two when n > 1; the last carries the new count n + k, and the first of two carries n + 1 |
| SampleBuffer.Process | power_profiler/power_profiler.py:136-167 | process keeps the store valid and advances the count by k |
| SampleBuffer.ProcessKeepsNewest | power_profiler/power_profiler.py:156-167 | after process the newest column holds the new count and the current, and away from MAX_HISTORY the valid columns are the old ones followed by exactly the columns written |
| SampleBuffer.ProcessAppendsColumns | power_profiler/power_profiler.py:156-167 | process appends its columns and then advances the count by k |
| SampleBuffer.ProcessAll | power_profiler/power_profiler.py:99-110 | calling process on each current of a read keeps the store valid and advances the count by k per current |
| SampleBuffer.ProcessAllAppendsHistory | power_profiler/power_profiler.py:136-167 | processing a run of currents is appending the columns of all of them, oldest first |
| SampleBuffer.ProcessAllConcat | power_profiler/power_profiler.py:88-110 | the store does not depend on how the currents were split between reads |
| SampleBuffer.StoreFromInit | power_profiler/power_profiler.py:136-167 | from a new store, the count is k per current and the valid columns are the newest ResidentLength of the written history |
| SampleBuffer.HistoryIncreasing | power_profiler/power_profiler.py:156-165 | the columns written for a run of currents have strictly increasing counts, all between the starting count and the final one |
| SampleBuffer.ProcessAllKeepsOrder | power_profiler/power_profiler.py:136-167 | an ordered store stays ordered: counts strictly increase along the valid columns and none exceeds the cumulative count |
| SampleArray.NewTable | power_profiler/power_profiler.py:48-50 | the new array is 4096 columns wide and its valid view is the new store |
| SampleArray.WriteColumn | power_profiler/power_profiler.py:163-165 | writing the record at column index changes that column only, leaving index, n and the width alone |
| SampleArray.IndexInc | power_profiler/power_profiler.py:140-153 | index_inc keeps the array at an allowed width with index inside it, and with room to spare only advances the index. |
| SampleArray.TableProcess | power_profiler/power_profiler.py:136-167 | process on the array keeps it at an allowed width with index inside it, and advances the count by k |
| SampleArray.TableProcessNewest | power_profiler/power_profiler.py:140-165 | after process on the array, the column just below index records the new count n + k and the current, whether index_inc grew the array or compacted it |
| SampleArray.WriteIncRefines | power_profiler/power_profiler.py:140-167 | writing column index and running index_inc on the array is Append on its valid columns, in all three branches |
| SampleArray.TableProcessRefines | power_profiler/power_profiler.py:136-167 | process on the array, with its in-place half copy, is Process on data[:, :index] |
| SampleArray.Get | power_profiler/power_profiler.py:169-170 | the first index columns of the returned array are the store's valid columns |
| Acquisition.Digit | power_profiler/power_profiler.py:179 | the command for gain g is the ASCII digit of g |
| Acquisition.NewProbe | power_profiler/power_profiler.py:45-52 | a new probe has gain 0, nothing queued, an empty valid store with count 0, and is not done |
| Acquisition.RequestGain | power_profiler/power_profiler.py:176-179 | the gain setter records g and queues its digit behind every pending command, leaving the store and the done flag alone |
| Acquisition.LoopTurn | power_profiler/power_profiler.py:88-119 | a turn sends only the oldest pending command and keeps the rest in order; sending switches calibration to the latest requested gain; the store gets the calibrated readings of the read, AVERAGE_N samples each; an empty read stores nothing and goes on; an IOError, a ValueError or a short read that raises IndexError ends the loop, and every other read leaves it running. A ValueError gives Aborted when an earlier read of the session returned, and otherwise kills the thread (Crashed) |
| Acquisition.FullFrameTurn | power_profiler/power_profiler.py:95-110 | a read of eight good slots keeps the loop going and stores eight currents, calibrated from bytes 2k and 2k+1, advancing the count by 16 |
| Acquisition.NewProbeStore | power_profiler/power_profiler.py:136-167 | a new probe fed any currents counts AVERAGE_N per current, holds the newest columns of their history, and keeps them ordered |
| Acquisition.LiveStep | power_profiler/power_profiler.py:88-119 | a turn of the running loop sends the oldest waiting command if there is one and then calibrates with the latest requested gain; it appends the read's calibrated readings to the stored currents and to the store; it ends the loop as ReadExit says; and after it a read of the session has returned exactly when one had before or this read returned bytes |
| Acquisition.Step | power_profiler/power_profiler.py:88-119 | a turn of the running loop sends the oldest waiting command if there is one, and switches calibration to the latest requested gain when it does. It appends the read's calibrated readings to the stored currents, and ends the loop exactly as the read decides. Every other event changes only the probe, and no event loses or reorders a command |
| Acquisition.StepKeepsCommands | power_profiler/power_profiler.py:88-94 | the gain, done flag and command FIFO stay accounted for after every event |
| Acquisition.StepKeepsStore | power_profiler/power_profiler.py:95-110 | the store stays the processing of every current stored so far after every event |
| Acquisition.ReadExit | power_profiler/power_profiler.py:95-119 | a read crashes the thread exactly when it has 1 to 15 bytes and is not a 15-byte read whose last slot is bad, or when it raises ValueError before any read of the session has returned |
| Acquisition.IntendedReadExit | power_profiler/power_profiler.py:112-119 | with print(raw) unable to fail, an IOError or a ValueError always leaves the loop so that the thread writes e and closes the port; this is the rule as written once a read has returned |
| Acquisition.FirstTurnValueErrorCrashes | power_profiler/power_profiler.py:116-119 | a session whose first read raises ValueError ends Crashed, without e or closing the port, where the intended rule gives Aborted and the closing byte |
| Acquisition.FirstExitNone | power_profiler/power_profiler.py:88-119 | the loop is still running after a script exactly when none of its events is a stop request or a loop-ending read |
| Acquisition.FirstExitIsFirst | power_profiler/power_profiler.py:88-119 | the first loop-ending event of a script decides how the loop ends, whatever comes after it |
| Acquisition.QueueDrains | power_profiler/power_profiler.py:90-94 | with no new requests and nothing ending the loop, each turn sends one queued command until the queue is empty |
| Acquisition.StepKeepsTrace | power_profiler/power_profiler.py:88-119 | after every event, the run's ending, commands sent, gain in effect and stored currents agree with the reference over the events so far |
| Acquisition.Session | power_profiler/power_profiler.py:54-133 | start() clears the done flag, then run() ends with the last requested gain; sent plus still queued commands are the old queue plus every request, in order; at most one command per turn; the outcome is that of the first loop-ending event of the script. The number of commands sent and the currents stored are those the reference over the script's events gives. The bytes written are s, the gain digit, g, the commands, then e unless the thread crashed, on a short read or on a ValueError before any read returned. Error 1 is signalled without a probe and error 2 on a failed read |

## Left out

- The main window (plotting, toolbar, shortcuts, CSV export and the rest of lines 190-502) and `setup.py` are not part of this model. The window reaches the probe through `start`, `stop`, `get`, the gain setter, the done flag it reads before plotting (line 366), and the `error` signal it shows in a message box (lines 357, 483-490). Calls to `start`, `stop` and the gain setter appear as script events. `get` appears as `SampleArray.Get`. The signal appears as the `errors` result of `Acquisition.Session`. The done flag appears as the probe's `done` field.
- Concurrency is not modelled. The window thread's actions happen between loop turns, in script order. A stop request set during a read takes effect at the next `while` check, which the model shows as the turn completing first. The unsynchronised `(data, index)` pair that `get` returns during a compaction is therefore not modelled.
- `stop()` waits up to 2 seconds for the thread (line 187). Timing is not modelled.
- Time is not modelled: `time.sleep`, the statistics and print-out of lines 121-130, and the time row of the array, which is only `n / SAMPLE_RATE`.
- `reset_input_buffer` is not modelled. The serial port is modelled only as the bytes written to it.
- Opening the port is assumed to succeed. An IOError raised by a `write` is not modelled; only reads are scripted to fail.
- The diagnostic prints are left out: "no data", "bad data", the current every 4096 columns, and the tracebacks.
- Calibration: the program's doubles are exact reals here, so rounding is not modelled.
- DeviceLink.Upper upper-cases ASCII letters only. `str.upper` also maps other Unicode letters. The signature is ASCII, but an id in which another character upper-cases to an ASCII letter is not modelled.
- Calibration.Gain is 0 or 1. The setter accepts any value, but the window only ever sets 0 or 1 (line 404), and `BETA` has only those two entries.
- ConfigWord.Pack takes each field at the width of its slot. The program ors unmasked integers, so a GAIN_SELECT above 1, a LOG2AVG above 63 or a SAMPLE_RATE of 2^20 or more would spill into the neighbouring fields. The shipped constants fit.
- SampleArray.NewTable fills unwritten columns with a fixed record. `np.empty` leaves arbitrary contents there, but nothing reads them.
- SampleBuffer.ProcessAllKeepsOrder requires k to be at least 1. The program always passes AVERAGE_N = 2. With k = 0 the count would not advance, and the order would not be strict.
- Acquisition.Session follows the program as written, including the crash on a first-turn `ValueError` (see "## Findings"). `IntendedReadExit` states the corrected rule but the session does not use it.
- Acquisition.Session ends with the outcome `Unfinished` when the script runs out while the done flag is still clear. That stands for a thread still running.

## Findings

| source | as written | input that shows it | evidently intended | confidence | as-written member | corrected member |
|---|---|---|---|---|---|---|
| power_profiler/power_profiler.py:116-119 | the `ValueError` handler runs `print(raw)`, but `raw` is a local of `run` assigned only when a read returns | the first read of a session raises `ValueError`: `print(raw)` raises `UnboundLocalError`, which nothing catches, so the thread dies without writing `e` or closing the port | print the diagnostic, leave the loop, write `e` and close the port, as the `IOError` handler does | not executed | Acquisition.FirstTurnValueErrorCrashes | Acquisition.IntendedReadExit |
