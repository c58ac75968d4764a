/**
 The acquisition thread of the profiler (class Probe in
 power_profiler/power_profiler.py:42-187): the state it keeps between
 sessions, the gain setter that queues a command, one turn of the read loop,
 and one whole run from port selection to teardown.

 The serial device is abstracted as the sequence of bytes written to it and a
 script of what each read returns. The user interface, which runs on another
 thread, appears in the script as gain requests and stop requests between
 loop turns.
 */
module Acquisition {
  import opened Wrappers
  import opened FrameDecoder
  import opened Calibration
  import opened SampleBuffer
  import opened DeviceLink

  /** AVERAGE_N = 1 << LOG2AVG, with LOG2AVG = 1. */
  const AverageN: nat := 2

  /** The error codes the thread emits: 1 when no probe is found, 2 when a read fails. */
  const NoDeviceCode: nat := 1
  const ReadFailedCode: nat := 2

  /** str(g).encode(): the command that selects gain range g. */
  function Digit(g: Gain): (c: char)
    ensures c as int == '0' as int + g
  {
    if g == 0 then '0' else '1'
  }

  /** What outlives a session: the latest requested gain, the pending commands, the
      store, and the done flag the window sets to stop the thread. */
  datatype Probe = Probe(gain: Gain, queue: seq<char>, store: Store, done: bool)

  /** A new probe: gain GAIN_SELECT = 0, nothing queued, an empty store, not done. */
  function NewProbe(): (p: Probe)
    ensures Valid(p.store) && p.store.resident == [] && p.store.n == 0
    ensures p.queue == [] && p.gain == 0 && !p.done
  {
    Probe(0, [], Init(), false)
  }

  /** The gain setter: record the request and queue its digit behind the pending commands. */
  function RequestGain(p: Probe, g: Gain): (q: Probe)
    ensures q.gain == g
    ensures |q.queue| == |p.queue| + 1 && q.queue[..|p.queue|] == p.queue && q.queue[|p.queue|] == Digit(g)
    ensures q.store == p.store && q.done == p.done
  {
    p.(gain := g, queue := p.queue + [Digit(g)])
  }

  /** What one read returns: bytes (none on a timeout), or an exception. */
  datatype ReadResult = Bytes(data: seq<bv8>) | IOFailure | ValueFailure

  /** How a run ended. Crashed is an exception nothing catches: the IndexError of a short
      read, or the UnboundLocalError that print(raw) raises when a ValueError comes
      before any read has returned. */
  datatype Outcome = NoDevice | Stopped | ReadFailed | Aborted | Crashed | Unfinished

  /** The calibrated currents of a read's readings. */
  function CalibrateAll(values: seq<nat>, g: Gain): (currents: seq<real>)
    ensures |currents| == |values|
    ensures forall i :: 0 <= i < |values| ==> currents[i] == Calibrate(values[i], g)
  {
    if |values| == 0 then [] else [Calibrate(values[0], g)] + CalibrateAll(values[1..], g)
  }

  /** One turn of the loop: its effect on the probe, the gain it calibrates with, what it
      wrote, the currents it stored, and the outcome when it ends the loop. */
  datatype Turn = Turn(probe: Probe, gainInEffect: Gain, sent: seq<char>, currents: seq<real>, exit: Option<Outcome>)

  /** One turn: send the oldest pending command if there is one, then read and store.
      `bound` tells whether an earlier read of the session returned, so that the local
      `raw` the ValueError handler prints exists. */
  function LoopTurn(p: Probe, current: Gain, read: ReadResult, bound: bool): (t: Turn)
    requires Valid(p.store)
    ensures Valid(t.probe.store)
    // at most one command goes out, the oldest, and the rest stay queued in order
    ensures t.sent + t.probe.queue == p.queue
    ensures |p.queue| > 0 ==> t.sent == [p.queue[0]]
    ensures |p.queue| == 0 ==> t.sent == []
    // sending a command switches calibration to the latest requested gain
    ensures t.gainInEffect == if |p.queue| > 0 then p.gain else current
    ensures t.probe.gain == p.gain && t.probe.done == p.done
    // the store receives the calibrated readings of the read, AVERAGE_N samples each
    ensures t.probe.store == ProcessAll(p.store, t.currents, AverageN)
    ensures read.Bytes? && |read.data| > 0 ==> t.currents == CalibrateAll(Decode(read.data).values, t.gainInEffect)
    ensures !read.Bytes? ==> t.currents == []
    // what ends the loop
    ensures t.exit == Some(ReadFailed) <==> read.IOFailure?
    ensures t.exit == Some(Aborted) <==> read.ValueFailure? && bound
    // an empty read is a timeout: nothing stored, the loop goes on
    ensures read == Bytes([]) ==> t.exit.None? && t.currents == []
    ensures t.exit == Some(Crashed) <==>
      (read.Bytes? && |read.data| > 0 && Decode(read.data).truncated) || (read.ValueFailure? && !bound)
    ensures t.exit != Some(NoDevice) && t.exit != Some(Stopped)
    ensures t.exit.None? <==> read.Bytes? && (|read.data| == 0 || !Decode(read.data).truncated)
  {
    var p1 := if |p.queue| > 0 then p.(queue := p.queue[1..]) else p;
    var sent := if |p.queue| > 0 then [p.queue[0]] else [];
    var gain := if |p.queue| > 0 then p.gain else current;
    match read
    case IOFailure => Turn(p1, gain, sent, [], Some(ReadFailed))
    case ValueFailure => Turn(p1, gain, sent, [], Some(if bound then Aborted else Crashed))
    case Bytes(data) =>
      if |data| == 0 then Turn(p1, gain, sent, [], None)
      else
        var d := Decode(data);
        var currents := CalibrateAll(d.values, gain);
        Turn(p1.(store := ProcessAll(p1.store, currents, AverageN)), gain, sent, currents,
             if d.truncated then Some(Crashed) else None)
  }

  /** A full frame whose eight slots are all good keeps the loop running and stores the
      eight calibrated readings in slot order, AVERAGE_N samples each. */
  lemma FullFrameTurn(p: Probe, current: Gain, frame: seq<bv8>, bound: bool)
    requires Valid(p.store) && |frame| == FrameSize
    requires forall j :: 0 <= j < SlotCount ==> GoodSlot(frame[2 * j])
    ensures var t := LoopTurn(p, current, Bytes(frame), bound);
      && t.exit.None? && |t.currents| == SlotCount
      && (forall j :: 0 <= j < SlotCount ==>
            t.currents[j] == Calibrate(SlotValue(frame[2 * j], frame[2 * j + 1]), t.gainInEffect))
      && t.probe.store.n == p.store.n + SlotCount * AverageN
  {
    AllGoodFrame(frame);
  }

  /** The store of a new probe after any run: the newest columns of the history of the
      currents it was fed, in increasing count order. */
  lemma NewProbeStore(samples: seq<real>)
    ensures var s := ProcessAll(NewProbe().store, samples, AverageN);
      var h := History(0, samples, AverageN);
      && s.n == |samples| * AverageN
      && s.resident == h[|h| - ResidentLength(|h|)..]
      && Ordered(s)
  {
    StoreFromInit(samples, AverageN);
    ProcessAllKeepsOrder(Init(), samples, AverageN);
  }

  /** What the window thread does while a session runs, in the order the loop sees it:
      a gain change, one turn's read, or a stop request (done = True). */
  datatype Event = GainRequest(g: Gain) | Iteration(read: ReadResult) | StopRequest

  /** The commands the gain changes of a script queue, in order. */
  function Requests(script: seq<Event>): (cmds: seq<char>)
    ensures |cmds| <= |script|
    ensures forall c :: c in cmds ==> c == Digit(0) || c == Digit(1)
    ensures (forall i :: 0 <= i < |script| ==> !script[i].GainRequest?) ==> cmds == []
    decreases |script|
  {
    if |script| == 0 then []
    else
      var e := script[|script| - 1];
      Requests(script[..|script| - 1]) + (if e.GainRequest? then [Digit(e.g)] else [])
  }

  /** The gain last requested by a script, g when it requests none. */
  function LastRequested(g: Gain, script: seq<Event>): (last: Gain)
    ensures (forall i :: 0 <= i < |script| ==> !script[i].GainRequest?) ==> last == g
    ensures last == g || exists i :: 0 <= i < |script| && script[i] == GainRequest(last)
    decreases |script|
  {
    if |script| == 0 then g
    else if script[|script| - 1].GainRequest? then script[|script| - 1].g
    else LastRequested(g, script[..|script| - 1])
  }

  /** How many loop turns a script offers. */
  function Iterations(script: seq<Event>): nat
    decreases |script|
  {
    if |script| == 0 then 0
    else Iterations(script[..|script| - 1]) + (if script[|script| - 1].Iteration? then 1 else 0)
  }

  /** Whether the script asks the thread to stop. */
  predicate StopsIn(script: seq<Event>) {
    exists i :: 0 <= i < |script| && script[i].StopRequest?
  }

  /** Whether a session that ended this way writes b'e' before closing the port: every
      way out of the loop but the uncaught IndexError of a short read does. */
  predicate SendsExit(o: Outcome) {
    o == Stopped || o == ReadFailed || o == Aborted
  }

  /** The readings one read delivers to the store: none when it failed or timed out. */
  function ReadValues(read: ReadResult): (values: seq<nat>)
    ensures |values| <= SlotCount
  {
    if read.Bytes? && |read.data| > 0 then Decode(read.data).values else []
  }

  /** How a read ends the loop, if it does: an IOError; a ValueError, which kills the
      thread when no read of the session has returned yet (`bound` false); or the
      IndexError of a short read, which every read of 1 to 15 bytes raises except a
      15-byte read whose last slot is bad. */
  function ReadExit(read: ReadResult, bound: bool): (o: Option<Outcome>)
    ensures o == Some(Crashed) <==>
      ((read.Bytes? && 0 < |read.data| < FrameSize
        && !(|read.data| == FrameSize - 1 && !GoodSlot(read.data[FrameSize - 2])))
       || (read.ValueFailure? && !bound))
  {
    match read
    case IOFailure => Some(ReadFailed)
    case ValueFailure => Some(if bound then Aborted else Crashed)
    case Bytes(data) => if |data| > 0 && Decode(data).truncated then Some(Crashed) else None
  }

  /** A turn of the loop ends it exactly as its read says. */
  lemma LoopTurnExit(p: Probe, current: Gain, read: ReadResult, bound: bool)
    requires Valid(p.store)
    ensures LoopTurn(p, current, read, bound).exit == ReadExit(read, bound)
  {
  }

  /** The exit rule the ValueError handler evidently intends: like the IOError handler,
      it leaves the loop so that the thread still writes b'e' and closes the port. It is
      the rule as written once a read of the session has returned. */
  function IntendedReadExit(read: ReadResult): (o: Option<Outcome>)
    ensures read.IOFailure? || read.ValueFailure? ==> o.Some? && SendsExit(o.value)
    ensures o == ReadExit(read, true)
  {
    match read
    case IOFailure => Some(ReadFailed)
    case ValueFailure => Some(Aborted)
    case Bytes(data) => if |data| > 0 && Decode(data).truncated then Some(Crashed) else None
  }

  /** How one event ends the loop, if it does: a stop request, or a read that ends it. */
  function EventExit(e: Event, bound: bool): Option<Outcome> {
    match e
    case GainRequest(_) => None
    case StopRequest => Some(Stopped)
    case Iteration(read) => ReadExit(read, bound)
  }

  /** How the loop ends over a script: the way out of the first event that ends it,
      None while no event has. */
  function FirstExit(script: seq<Event>): Option<Outcome>
    decreases |script|
  {
    if |script| == 0 then None
    else if FirstExit(script[..|script| - 1]).Some? then FirstExit(script[..|script| - 1])
    else EventExit(script[|script| - 1], ReadBefore(script[..|script| - 1]))
  }

  /** Whether a turn the loop ran over the script read some bytes (possibly none), so
      that `raw` is bound. */
  predicate ReadBefore(script: seq<Event>)
    decreases |script|
  {
    if |script| == 0 then false
    else
      var s, e := script[..|script| - 1], script[|script| - 1];
      ReadBefore(s) || (e.Iteration? && FirstExit(s).None? && e.read.Bytes?)
  }

  /** The loop is still running after a script exactly when none of its events ends it. */
  lemma {:induction false} FirstExitNone(script: seq<Event>)
    ensures FirstExit(script).None? <==>
      forall i :: 0 <= i < |script| ==> EventExit(script[i], ReadBefore(script[..i])).None?
    decreases |script|
  {
    if |script| > 0 {
      var s := script[..|script| - 1];
      FirstExitNone(s);
      forall i | 0 <= i < |s|
        ensures EventExit(s[i], ReadBefore(s[..i])) == EventExit(script[i], ReadBefore(script[..i]))
      {
        assert s[..i] == script[..i];
      }
      assert script[..|s|] == s;
      if FirstExit(script).None? {
        assert FirstExit(s).None? && EventExit(script[|s|], ReadBefore(s)).None?;
        forall i | 0 <= i < |script|
          ensures EventExit(script[i], ReadBefore(script[..i])).None?
        {
          if i < |s| {
            assert EventExit(s[i], ReadBefore(s[..i])).None?;
          }
        }
      } else if FirstExit(s).Some? {
        var i :| 0 <= i < |s| && EventExit(s[i], ReadBefore(s[..i])).Some?;
        assert EventExit(script[i], ReadBefore(script[..i])).Some?;
      } else {
        assert EventExit(script[|s|], ReadBefore(script[..|s|])).Some?;
      }
    }
  }

  /** The event that ends the loop decides how it ends: an IOFailure read before any stop
      request and any other loop-ending read is ReadFailed, and so on. */
  lemma {:induction false} FirstExitIsFirst(script: seq<Event>, i: nat)
    requires i < |script| && EventExit(script[i], ReadBefore(script[..i])).Some?
    requires forall j :: 0 <= j < i ==> EventExit(script[j], ReadBefore(script[..j])).None?
    ensures FirstExit(script) == EventExit(script[i], ReadBefore(script[..i]))
    decreases |script|
  {
    var s := script[..|script| - 1];
    assert forall j :: 0 <= j < |s| ==> s[j] == script[j] && s[..j] == script[..j];
    if i == |script| - 1 {
      FirstExitNone(s);
    } else {
      FirstExitIsFirst(s, i);
    }
  }

  /** As written, a ValueError on the first turn of a session kills the thread: the
      handler's print(raw) finds no `raw`, so no b'e' is written, no error is signalled
      and the port stays open, where the intended rule ends the loop and sends b'e'. */
  lemma FirstTurnValueErrorCrashes(script: seq<Event>)
    requires |script| > 0 && script[0] == Iteration(ValueFailure)
    ensures FirstExit(script) == Some(Crashed) && !SendsExit(Crashed)
    ensures IntendedReadExit(ValueFailure) == Some(Aborted) && SendsExit(Aborted)
  {
    assert script[..1][..0] == [];
    FirstExitIsFirst(script, 0);
  }

  /** Whether event e, coming after the events s, is a turn the loop runs. */
  predicate RunsAfter(s: seq<Event>, e: Event) {
    e.Iteration? && FirstExit(s).None?
  }

  /** How many commands go out over a script when q0 were queued at the start: one on
      every turn the loop runs while a command is waiting. */
  function Dispatches(q0: nat, script: seq<Event>): nat
    decreases |script|
  {
    if |script| == 0 then 0
    else
      var s := script[..|script| - 1];
      Dispatches(q0, s)
        + (if RunsAfter(s, script[|script| - 1]) && Dispatches(q0, s) < q0 + |Requests(s)| then 1 else 0)
  }

  /** Whether a command is waiting after the events s. */
  predicate Waiting(q0: nat, s: seq<Event>) {
    Dispatches(q0, s) < q0 + |Requests(s)|
  }

  /** The gain calibration uses after a script: g0 until a command goes out, and from
      each send on the gain last requested before it. */
  function GainInEffect(g0: Gain, q0: nat, script: seq<Event>): Gain
    decreases |script|
  {
    if |script| == 0 then g0
    else
      var s := script[..|script| - 1];
      if RunsAfter(s, script[|script| - 1]) && Waiting(q0, s) then LastRequested(g0, s)
      else GainInEffect(g0, q0, s)
  }

  /** The currents the store receives over a script: every turn the loop runs adds its
      read's readings, calibrated with the gain in effect after that turn's send. */
  function Currents(g0: Gain, q0: nat, script: seq<Event>): seq<real>
    decreases |script|
  {
    if |script| == 0 then []
    else
      var s, e := script[..|script| - 1], script[|script| - 1];
      Currents(g0, q0, s)
        + (if RunsAfter(s, e) then CalibrateAll(ReadValues(e.read), GainInEffect(g0, q0, script)) else [])
  }

  /** Prefix lemma for the reference, one event further. */
  lemma ReferenceStep(g0: Gain, q0: nat, script: seq<Event>, i: nat)
    requires i < |script|
    ensures var s, e := script[..i], script[i];
      && FirstExit(script[..i + 1]) == (if FirstExit(s).Some? then FirstExit(s) else EventExit(e, ReadBefore(s)))
      && ReadBefore(script[..i + 1]) == (ReadBefore(s) || (RunsAfter(s, e) && e.read.Bytes?))
      && Dispatches(q0, script[..i + 1]) == Dispatches(q0, s) + (if RunsAfter(s, e) && Waiting(q0, s) then 1 else 0)
      && GainInEffect(g0, q0, script[..i + 1])
         == (if RunsAfter(s, e) && Waiting(q0, s) then LastRequested(g0, s) else GainInEffect(g0, q0, s))
      && Currents(g0, q0, script[..i + 1])
         == Currents(g0, q0, s) + (if RunsAfter(s, e) then CalibrateAll(ReadValues(e.read), GainInEffect(g0, q0, script[..i + 1])) else [])
  {
    assert script[..i + 1][..i] == script[..i];
  }

  /** With no new requests and no event ending the loop, the turns drain the queue one
      command each: q0 queued commands and q0 turns give q0 sends, and fewer turns send
      one command each. */
  lemma {:induction false} QueueDrains(q0: nat, script: seq<Event>)
    requires forall i :: 0 <= i < |script| ==>
      !script[i].GainRequest? && EventExit(script[i], ReadBefore(script[..i])).None?
    ensures Dispatches(q0, script) == if Iterations(script) < q0 then Iterations(script) else q0
    decreases |script|
  {
    if |script| > 0 {
      var s := script[..|script| - 1];
      assert forall i :: 0 <= i < |s| ==> s[i] == script[i] && s[..i] == script[..i];
      QueueDrains(q0, s);
      FirstExitNone(s);
    }
  }

  /** Prefix lemmas for the script measures, one event further. */
  lemma ScriptStep(g: Gain, script: seq<Event>, i: nat)
    requires i < |script|
    ensures Requests(script[..i + 1])
         == Requests(script[..i]) + (if script[i].GainRequest? then [Digit(script[i].g)] else [])
    ensures LastRequested(g, script[..i + 1]) == (if script[i].GainRequest? then script[i].g else LastRequested(g, script[..i]))
    ensures Iterations(script[..i + 1]) == Iterations(script[..i]) + (if script[i].Iteration? then 1 else 0)
    ensures StopsIn(script[..i + 1]) <==> StopsIn(script[..i]) || script[i].StopRequest?
  {
    assert script[..i + 1][..i] == script[..i];
  }

  /** The state of a run between events: the probe, the gain calibration uses, how the
      loop ended if it has, the commands sent so far and the currents stored so far. */
  datatype Run = Run(probe: Probe, current: Gain, ended: Option<Outcome>, bound: bool,
                     dispatched: seq<char>, samples: seq<real>)

  /** A turn of the running loop: the oldest command goes out, the read's currents are
      stored, and the read decides whether the loop ends. */
  function LiveStep(r: Run, read: ReadResult): (u: Run)
    requires Valid(r.probe.store) && r.ended.None? && !r.probe.done
    ensures Valid(u.probe.store)
    ensures u.probe.gain == r.probe.gain && u.probe.done == r.probe.done
    ensures u.dispatched + u.probe.queue == r.dispatched + r.probe.queue
    ensures u.dispatched == r.dispatched + (if |r.probe.queue| > 0 then [r.probe.queue[0]] else [])
    ensures u.current == (if |r.probe.queue| > 0 then r.probe.gain else r.current)
    ensures u.samples == r.samples + CalibrateAll(ReadValues(read), u.current)
    ensures u.probe.store == ProcessAll(r.probe.store, u.samples[|r.samples|..], AverageN)
    ensures u.ended == ReadExit(read, r.bound)
    ensures u.bound == (r.bound || read.Bytes?)
  {
    var t := LoopTurn(r.probe, r.current, read, r.bound);
    LoopTurnExit(r.probe, r.current, read, r.bound);
    assert (r.samples + t.currents)[|r.samples|..] == t.currents;
    Run(t.probe, t.gainInEffect, t.exit, r.bound || read.Bytes?, r.dispatched + t.sent, r.samples + t.currents)
  }

  /** One event of the window thread as the run sees it. The window's changes always reach
      the probe; a read happens only while the loop still runs, that is while no exception
      ended it and the done flag was clear at the loop's check. */
  function Step(r: Run, e: Event): (u: Run)
    requires Valid(r.probe.store)
    ensures Valid(u.probe.store)
    ensures u.probe.gain == (if e.GainRequest? then e.g else r.probe.gain)
    ensures u.probe.done == (r.probe.done || e.StopRequest?)
    // no command is lost or reordered: a queued one moves to the wire, a request is queued
    ensures u.dispatched + u.probe.queue
         == r.dispatched + r.probe.queue + (if e.GainRequest? then [Digit(e.g)] else [])
    ensures |r.dispatched| <= |u.dispatched| <= |r.dispatched| + (if e.Iteration? then 1 else 0)
    // the stored currents grow by at most a frame, and the store holds them
    ensures |r.samples| <= |u.samples| <= |r.samples| + (if e.Iteration? then SlotCount else 0)
    ensures u.samples[..|r.samples|] == r.samples
    ensures u.probe.store == ProcessAll(r.probe.store, u.samples[|r.samples|..], AverageN)
    // once ended, nothing is read or sent; a turn ends the loop only by an exception
    ensures r.ended.Some? ==> u.ended == r.ended && u.dispatched == r.dispatched && u.samples == r.samples
    ensures r.ended.None? && u.ended.Some? ==> e.Iteration? && u.ended.value in {ReadFailed, Aborted, Crashed}
    ensures r.probe.done && !e.GainRequest? && !e.StopRequest? ==> u == r
    // a turn of the running loop: the oldest command goes out, the read is stored, and
    // the read decides whether the loop ends
    ensures e.Iteration? && r.ended.None? && !r.probe.done ==>
      && u.dispatched == r.dispatched + (if |r.probe.queue| > 0 then [r.probe.queue[0]] else [])
      && u.current == (if |r.probe.queue| > 0 then r.probe.gain else r.current)
      && u.samples == r.samples + CalibrateAll(ReadValues(e.read), u.current)
      && u.ended == ReadExit(e.read, r.bound)
      && u.bound == (r.bound || e.read.Bytes?)
    // any other event changes only the probe
    ensures !(e.Iteration? && r.ended.None? && !r.probe.done) ==>
      u.current == r.current && u.dispatched == r.dispatched && u.samples == r.samples
      && u.ended == r.ended && u.bound == r.bound
  {
    match e
    case GainRequest(g) => r.(probe := RequestGain(r.probe, g))
    case StopRequest => r.(probe := r.probe.(done := true))
    case Iteration(read) =>
      if r.ended.Some? || r.probe.done then r
      else
        var u := LiveStep(r, read);
        assert u.samples[..|r.samples|] == r.samples;
        u
  }

  /** What holds of the probe's commands after the first i events of a script, for a run
      that started from probe p, with `found` telling whether a probe port was found. */
  predicate CommandsInvariant(p: Probe, found: bool, script: seq<Event>, i: nat, r: Run)
    requires i <= |script|
  {
    && r.probe.gain == LastRequested(p.gain, script[..i])
    && r.probe.done == (p.done || StopsIn(script[..i]))
    && r.dispatched + r.probe.queue == p.queue + Requests(script[..i])
    && |r.dispatched| <= Iterations(script[..i])
    && (!found ==> r.ended == Some(NoDevice) && r.dispatched == [])
    && (found ==> r.ended != Some(NoDevice) && r.ended != Some(Stopped) && r.ended != Some(Unfinished))
  }

  /** What holds of the store after the first i events of a script. */
  predicate StoreInvariant(p: Probe, found: bool, script: seq<Event>, i: nat, r: Run)
    requires i <= |script| && Valid(p.store)
  {
    && Valid(r.probe.store)
    && (!found ==> r.ended == Some(NoDevice) && r.samples == [])
    && r.probe.store == ProcessAll(p.store, r.samples, AverageN)
    && |r.samples| <= SlotCount * Iterations(script[..i])
  }

  lemma StepKeepsCommands(p: Probe, found: bool, script: seq<Event>, i: nat, r: Run)
    requires i < |script| && Valid(r.probe.store) && CommandsInvariant(p, found, script, i, r)
    ensures CommandsInvariant(p, found, script, i + 1, Step(r, script[i]))
  {
    ScriptStep(p.gain, script, i);
  }

  lemma StepKeepsStore(p: Probe, found: bool, script: seq<Event>, i: nat, r: Run)
    requires i < |script| && Valid(p.store) && StoreInvariant(p, found, script, i, r)
    ensures StoreInvariant(p, found, script, i + 1, Step(r, script[i]))
  {
    var u := Step(r, script[i]);
    ScriptStep(p.gain, script, i);
    assert r.samples + u.samples[|r.samples|..] == u.samples;
    ProcessAllConcat(p.store, r.samples, u.samples[|r.samples|..], AverageN);
    assert |u.samples| <= |r.samples| + (if script[i].Iteration? then SlotCount else 0);
  }

  /** What a run that found the probe has done after the first i events of a script,
      against the reference: how the loop ended, the commands sent, the gain in effect
      and the currents stored. */
  predicate TraceInvariant(p: Probe, script: seq<Event>, i: nat, r: Run)
    requires i <= |script|
  {
    var s := script[..i];
    && r.current == GainInEffect(p.gain, |p.queue|, s)
    && |r.dispatched| == Dispatches(|p.queue|, s)
    && r.samples == Currents(p.gain, |p.queue|, s)
    && r.bound == ReadBefore(s)
    && (FirstExit(s).None? <==> r.ended.None? && !r.probe.done)
    && (FirstExit(s).Some? ==> FirstExit(s) == (if r.ended.Some? then r.ended else Some(Stopped)))
  }

  lemma StepKeepsTrace(p: Probe, script: seq<Event>, i: nat, r: Run)
    requires i < |script| && Valid(r.probe.store)
    requires CommandsInvariant(p, true, script, i, r) && TraceInvariant(p, script, i, r)
    ensures TraceInvariant(p, script, i + 1, Step(r, script[i]))
  {
    ReferenceStep(p.gain, |p.queue|, script, i);
    assert |r.dispatched| + |r.probe.queue| == |p.queue| + |Requests(script[..i])|;
  }

  /** One run of the thread, start() then run(): clear the done flag, find the probe, open it and send stop, the gain digit
      and go, then loop until the done flag is set or an exception ends the loop, and
      finally send b'e'. The window's events reach the probe whenever they happen; the
      loop sees a stop request at its next check and runs one turn per Iteration. A
      script that ends while the flag is still clear leaves the session Unfinished. */
  method Session(p: Probe, ports: seq<PortInfo>, script: seq<Event>)
      returns (q: Probe, writes: seq<char>, errors: seq<nat>, outcome: Outcome,
               dispatched: seq<char>, samples: seq<real>)
    requires Valid(p.store)
    ensures Valid(q.store)
    // the window's requests all reach the probe
    ensures q.gain == LastRequested(p.gain, script)
    ensures q.done == StopsIn(script)
    // the commands go out oldest first, each at most once and at most one per turn
    ensures dispatched + q.queue == p.queue + Requests(script)
    ensures |dispatched| <= Iterations(script)
    // what goes over the wire
    ensures SelectPort(ports).None? ==> outcome == NoDevice && writes == [] && dispatched == []
    ensures SelectPort(ports).Some? ==> (outcome != NoDevice &&
      writes == [StopByte, Digit(p.gain), GoByte] + dispatched + (if SendsExit(outcome) then [ExitByte] else []))
    // error signals: 1 when no probe is connected, 2 when a read fails
    ensures errors == (if outcome == NoDevice then [NoDeviceCode]
                       else if outcome == ReadFailed then [ReadFailedCode] else [])
    // a stop request only ends the loop if nothing ended it first
    ensures outcome == Stopped ==> q.done
    ensures outcome == Unfinished ==> !q.done
    // the store is fed every calibrated current, AVERAGE_N samples each, at most a frame per turn
    ensures q.store == ProcessAll(p.store, samples, AverageN)
    ensures |samples| <= SlotCount * Iterations(script)
    // against the reference: the first loop-ending event decides the outcome, a command
    // goes out on every turn run while one waits, and every turn run stores its readings
    ensures SelectPort(ports).Some? ==>
      outcome == (if FirstExit(script).Some? then FirstExit(script).value else Unfinished)
    ensures SelectPort(ports).Some? ==> |dispatched| == Dispatches(|p.queue|, script)
    ensures SelectPort(ports).Some? ==> samples == Currents(p.gain, |p.queue|, script)
    ensures SelectPort(ports).None? ==> samples == []
  {
    var started := p.(done := false);
    var port := SelectPort(ports);
    var r := Run(started, p.gain, if port.None? then Some(NoDevice) else None, false, [], []);
    var i := 0;
    while i < |script|
      invariant 0 <= i <= |script|
      invariant CommandsInvariant(started, port.Some?, script, i, r)
      invariant StoreInvariant(started, port.Some?, script, i, r)
      invariant port.Some? ==> TraceInvariant(started, script, i, r)
    {
      if port.Some? {
        StepKeepsTrace(started, script, i, r);
      }
      StepKeepsCommands(started, port.Some?, script, i, r);
      StepKeepsStore(started, port.Some?, script, i, r);
      r, i := Step(r, script[i]), i + 1;
    }
    assert script[..i] == script;
    q, dispatched, samples := r.probe, r.dispatched, r.samples;
    outcome := if r.ended.Some? then r.ended.value else if q.done then Stopped else Unfinished;
    if port.None? {
      writes, errors := [], [NoDeviceCode];
    } else {
      writes := [StopByte, Digit(p.gain), GoByte] + dispatched + (if SendsExit(outcome) then [ExitByte] else []);
      errors := if outcome == ReadFailed then [ReadFailedCode] else [];
    }
  }
}
