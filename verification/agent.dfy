/**
 The agent's control flow, `runApp` with the `reportDeviceDetails` call it
 makes first, as a state machine over the points where the program waits on
 something outside it: an SDK call, the file read, the sensor script, the
 five-minute timer. The environment decides each outcome (an `Input`); a
 step consumes it, runs the program up to the next such point and appends
 what the program did to the trace (open and close sessions, report device
 details, send telemetry, sleep, exit).
 */
module Agent {
  import opened Base
  import opened Text
  import opened CpuInfo
  import opened Telemetry

  /** `1000 * 60 * 5`: the wait between two cycles, in milliseconds. */
  const CycleSleepMs: nat := 1000 * 60 * 5

  /** The call the program is waiting on, or how it has stopped. */
  datatype Pc =
    | StartCreate   // reportDeviceDetails: clientFromConnectionString
    | StartOpen     // reportDeviceDetails: await client.open()
    | StartTwin     // reportDeviceDetails: await client.getTwin()
    | StartSysInfo  // reportDeviceDetails: await getSystemInfo(), i.e. the file read
    | StartUpdate   // the reported-properties update callback
    | StartClose    // the close callback that resolves reportDeviceDetails
    | LoopCreate    // loop: clientFromConnectionString
    | LoopOpen      // loop: await client.open()
    | LoopRead      // loop: await readSensors()
    | LoopSend      // loop: await client.sendEvent(message)
    | LoopSleep     // loop: await the five-minute timer
    | Exited        // exit() after reportDeviceDetails failed
    | Returned      // runApp returned after a failed open in the loop
    | Rejected      // runApp's promise rejected: client creation threw in the loop

  /** The environment's answer to the call the program is waiting on. */
  datatype Input =
    | Done                                  // the call returned or resolved, or its callback ran (with no error, where the error is looked at)
    | Threw                                 // the call threw or rejected; a callback received an error
    | Loaded(info: SysInfo)                 // getSystemInfo resolved with these details
    | SensorsRead(value: JsValue, now: int) // readSensors resolved with `value`; Date.now() reads `now`

  /** What the program does that the outside world sees. */
  datatype Event =
    | Opened                           // client.open() resolved: a session is open
    | Closed                           // client.close() issued on the open session
    | Reported(details: SysInfo)       // reported-properties update issued with { deviceDetails: details }
    | Sent(body: map<string, JsValue>) // sendEvent issued with this body
    | Slept(ms: nat)                   // setTimeout scheduled for `ms` milliseconds
    | Exit                             // process exit()

  /** The program's position and everything it has done so far. */
  datatype Machine = Machine(pc: Pc, trace: seq<Event>)

  /** Process start: `runApp()` is about to call `reportDeviceDetails()`. */
  const Init := Machine(StartCreate, [])

  /** The program has stopped and waits on nothing. */
  predicate Halted(pc: Pc) {
    pc.Exited? || pc.Returned? || pc.Rejected?
  }

  /** The answers each waiting point can receive. */
  predicate Answers(pc: Pc, i: Input) {
    match pc
    case StartSysInfo => i.Loaded? || i.Threw?
    case LoopRead => i.SensorsRead? || i.Threw?
    case StartClose => i.Done?
    case LoopSleep => i.Done?
    case Exited => false
    case Returned => false
    case Rejected => false
    case _ => i.Done? || i.Threw?
  }

  /**
   How `await getSystemInfo()` ends once readFile has delivered `contents`:
   it resolves with the parsed details, or rejects when the parse throws.
   */
  function SysInfoOutcome(contents: string): (i: Input)
    ensures i.Loaded? || i == Threw
    ensures i.Loaded? <==> forall k :: 0 <= k < |SplitLines(contents)| ==> Readable(SplitLines(contents)[k])
    ensures i.Loaded? ==> forall l :: Field(i.info, l) == LastValue(SplitLines(contents), l)
  {
    GetSystemInfoMeaning(contents);
    match GetSystemInfo(contents)
    case Ok(info) => Loaded(info)
    case Err(_) => Threw
  }

  /** The end of every cycle that opened a session: close it, then wait. */
  const CloseAndSleep := [Closed, Slept(CycleSleepMs)]

  /**
   One answer and the program's run up to its next waiting point. A step
   only appends to the trace, at most two events.
   */
  function Step(m: Machine, i: Input): (r: Machine)
    requires Answers(m.pc, i)
    ensures |m.trace| <= |r.trace| <= |m.trace| + 2 && r.trace[..|m.trace|] == m.trace
  {
    var t := m.trace;
    match m.pc
    case StartCreate => if i.Threw? then Machine(Exited, t + [Exit]) else Machine(StartOpen, t)
    case StartOpen => if i.Threw? then Machine(LoopCreate, t) else Machine(StartTwin, t + [Opened])
    case StartTwin => if i.Threw? then Machine(Exited, t + [Exit]) else Machine(StartSysInfo, t)
    case StartSysInfo => if i.Threw? then Machine(Exited, t + [Exit]) else Machine(StartUpdate, t + [Reported(i.info)])
    case StartUpdate => Machine(StartClose, t + [Closed])
    case StartClose => Machine(LoopCreate, t)
    case LoopCreate => if i.Threw? then Machine(Rejected, t) else Machine(LoopOpen, t)
    case LoopOpen => if i.Threw? then Machine(Returned, t) else Machine(LoopRead, t + [Opened])
    case LoopRead =>
      if i.SensorsRead? && Truthy(i.value) then Machine(LoopSend, t + [Sent(Body(i.now, i.value))])
      else Machine(LoopSleep, t + CloseAndSleep)
    case LoopSend => Machine(LoopSleep, t + CloseAndSleep)
    case LoopSleep => Machine(LoopCreate, t)
  }

  /** Every answer in `inputs`, in turn, is one the program can receive at that point. */
  predicate Accepts(m: Machine, inputs: seq<Input>)
    decreases |inputs|
  {
    |inputs| == 0 || (Answers(m.pc, inputs[0]) && Accepts(Step(m, inputs[0]), inputs[1..]))
  }

  /** Steps through a sequence of answers. */
  function Run(m: Machine, inputs: seq<Input>): Machine
    requires Accepts(m, inputs)
    decreases |inputs|
  {
    if |inputs| == 0 then m else Run(Step(m, inputs[0]), inputs[1..])
  }

  /** A run only appends to the trace: nothing already done is undone or reordered. */
  lemma {:induction false} RunExtends(m: Machine, inputs: seq<Input>)
    requires Accepts(m, inputs)
    ensures var t' := Run(m, inputs).trace;
            |m.trace| <= |t'| && t'[..|m.trace|] == m.trace
    decreases |inputs|
  {
    if |inputs| > 0 {
      var m' := Step(m, inputs[0]);
      RunExtends(m', inputs[1..]);
      var t' := Run(m, inputs).trace;
      assert t'[..|m'.trace|][..|m.trace|] == t'[..|m.trace|];
    }
  }

  // ---------------------------------------------------------------------------
  // Session accounting
  // ---------------------------------------------------------------------------

  /** How an event changes the number of open sessions. */
  function Delta(e: Event): int {
    if e.Opened? then 1 else if e.Closed? then -1 else 0
  }

  /** Sessions opened minus sessions closed over a trace. */
  function Held(t: seq<Event>): int
    decreases |t|
  {
    if |t| == 0 then 0 else Held(t[..|t| - 1]) + Delta(t[|t| - 1])
  }

  /**
   At every point of the trace at most one session is open and no close
   comes without an open before it.
   */
  ghost predicate Nested(t: seq<Event>) {
    forall k :: 0 <= k <= |t| ==> 0 <= Held(t[..k]) <= 1
  }

  /** Telemetry is only sent while a session is open. */
  ghost predicate SendsInSession(t: seq<Event>) {
    forall k :: 0 <= k < |t| && t[k].Sent? ==> Held(t[..k]) == 1
  }

  /** The number of sessions the program holds while waiting at `pc`. */
  function SessionsAt(pc: Pc): int {
    match pc
    case StartTwin => 1
    case StartSysInfo => 1
    case StartUpdate => 1
    case LoopRead => 1
    case LoopSend => 1
    case _ => 0
  }

  /** The invariant every reachable machine keeps. */
  ghost predicate Inv(m: Machine) {
    && Nested(m.trace)
    && SendsInSession(m.trace)
    && (!m.pc.Exited? ==> Held(m.trace) == SessionsAt(m.pc))
    && (Exit in m.trace <==> m.pc.Exited?)
  }

  /** Appending one event keeps the accounting when it keeps the count in range. */
  lemma AppendEvent(t: seq<Event>, e: Event)
    requires Nested(t) && SendsInSession(t)
    requires 0 <= Held(t) + Delta(e) <= 1
    requires e.Sent? ==> Held(t) == 1
    ensures Held(t + [e]) == Held(t) + Delta(e)
    ensures Nested(t + [e]) && SendsInSession(t + [e])
  {
    var t' := t + [e];
    assert t'[..|t'| - 1] == t;
    forall k | 0 <= k <= |t'| ensures 0 <= Held(t'[..k]) <= 1 {
      if k <= |t| {
        assert t'[..k] == t[..k];
      } else {
        assert t'[..k] == t';
      }
    }
    forall k | 0 <= k < |t'| && t'[k].Sent? ensures Held(t'[..k]) == 1 {
      if k < |t| {
        assert t'[..k] == t[..k] && t'[k] == t[k];
      } else {
        assert t'[..k] == t;
      }
    }
  }

  /** The close-and-sleep tail leaves no session open. */
  lemma AppendCloseAndSleep(t: seq<Event>)
    requires Nested(t) && SendsInSession(t) && Held(t) == 1
    ensures Held(t + CloseAndSleep) == 0
    ensures Nested(t + CloseAndSleep) && SendsInSession(t + CloseAndSleep)
  {
    AppendEvent(t, Closed);
    AppendEvent(t + [Closed], Slept(CycleSleepMs));
    assert t + [Closed] + [Slept(CycleSleepMs)] == t + CloseAndSleep;
  }

  /** The machine at process start keeps the invariant. */
  lemma InitInv()
    ensures Inv(Init)
  {
  }

  /** Reaching `pc` with one more event keeps the invariant, when the count lands right. */
  lemma InvAfterEvent(m: Machine, e: Event, pc: Pc)
    requires Inv(m) && !m.pc.Exited?
    requires e.Exit? <==> pc.Exited?
    requires !pc.Exited? ==> Held(m.trace) + Delta(e) == SessionsAt(pc)
    requires 0 <= Held(m.trace) + Delta(e) <= 1
    requires e.Sent? ==> Held(m.trace) == 1
    ensures Inv(Machine(pc, m.trace + [e]))
  {
    AppendEvent(m.trace, e);
  }

  /** Every step keeps the invariant. */
  lemma StepInv(m: Machine, i: Input)
    requires Inv(m) && Answers(m.pc, i)
    ensures Inv(Step(m, i))
  {
    if m.pc.LoopRead? || m.pc.LoopSend? {
      CycleEndInv(m, i);
    } else {
      OtherStepInv(m, i);
    }
  }

  /** The steps that read the sensors and send telemetry keep the invariant. */
  lemma CycleEndInv(m: Machine, i: Input)
    requires Inv(m) && Answers(m.pc, i)
    requires m.pc.LoopRead? || m.pc.LoopSend?
    ensures Inv(Step(m, i))
  {
    var t := m.trace;
    if m.pc.LoopRead? && i.SensorsRead? && Truthy(i.value) {
      assert Step(m, i) == Machine(LoopSend, t + [Sent(Body(i.now, i.value))]);
      InvAfterEvent(m, Sent(Body(i.now, i.value)), LoopSend);
    } else {
      assert Step(m, i) == Machine(LoopSleep, t + CloseAndSleep);
      AppendCloseAndSleep(t);
    }
  }

  /** Every other step keeps the invariant. */
  lemma OtherStepInv(m: Machine, i: Input)
    requires Inv(m) && Answers(m.pc, i)
    requires !m.pc.LoopRead? && !m.pc.LoopSend?
    ensures Inv(Step(m, i))
  {
    match m.pc
    case StartCreate =>
      if i.Threw? { InvAfterEvent(m, Exit, Exited); }
    case StartOpen =>
      if !i.Threw? { InvAfterEvent(m, Opened, StartTwin); }
    case StartTwin =>
      if i.Threw? { InvAfterEvent(m, Exit, Exited); }
    case StartSysInfo =>
      if i.Threw? {
        InvAfterEvent(m, Exit, Exited);
      } else {
        InvAfterEvent(m, Reported(i.info), StartUpdate);
      }
    case StartUpdate =>
      InvAfterEvent(m, Closed, StartClose);
    case StartClose =>
    case LoopCreate =>
    case LoopOpen =>
      if !i.Threw? { InvAfterEvent(m, Opened, LoopRead); }
    case LoopSleep =>
  }

  /** Running any sequence of answers keeps the invariant. */
  lemma {:induction false} RunInv(m: Machine, inputs: seq<Input>)
    requires Inv(m) && Accepts(m, inputs)
    ensures Inv(Run(m, inputs))
    decreases |inputs|
  {
    if |inputs| > 0 {
      StepInv(m, inputs[0]);
      RunInv(Step(m, inputs[0]), inputs[1..]);
    }
  }

  /**
   Over every run from process start: at most one session is open at any
   time, every close closes an open session, telemetry is sent only inside a
   session, and each loop iteration's open happens with no session open.
   */
  lemma SessionsNeverOverlap(inputs: seq<Input>)
    requires Accepts(Init, inputs)
    ensures Nested(Run(Init, inputs).trace)
    ensures SendsInSession(Run(Init, inputs).trace)
    ensures Run(Init, inputs).pc.LoopOpen? ==> Held(Run(Init, inputs).trace) == 0
    ensures Run(Init, inputs).pc.LoopSleep? ==> Held(Run(Init, inputs).trace) == 0
  {
    InitInv();
    RunInv(Init, inputs);
  }

  // ---------------------------------------------------------------------------
  // Which outcomes do what
  // ---------------------------------------------------------------------------

  /** A halted program accepts no further answer: nothing more happens. */
  lemma HaltedIsFinal(pc: Pc, i: Input)
    requires Halted(pc)
    ensures !Answers(pc, i)
  {
  }

  /**
   Only failures while reporting device details reach exit(): client creation
   throwing, getTwin throwing, or getSystemInfo throwing (file read or parse).
   */
  lemma ExitCauses(m: Machine, i: Input)
    requires Answers(m.pc, i)
    ensures Step(m, i).pc.Exited? <==>
              || (m.pc.StartCreate? && i.Threw?)
              || (m.pc.StartTwin? && i.Threw?)
              || (m.pc.StartSysInfo? && i.Threw?)
  {
  }

  /**
   The loop ends only at the top of an iteration: a failed open returns from
   runApp, and client creation throwing rejects it. Read and send failures
   never end the loop.
   */
  lemma LoopEndCauses(m: Machine, i: Input)
    requires Answers(m.pc, i)
    ensures Step(m, i).pc.Returned? <==> m.pc.LoopOpen? && i.Threw?
    ensures Step(m, i).pc.Rejected? <==> m.pc.LoopCreate? && i.Threw?
  {
  }

  /** A step sends telemetry exactly when a truthy sensor reading arrives, and sends its body. */
  lemma SendCause(m: Machine, i: Input)
    requires Answers(m.pc, i)
    ensures (exists e :: e in Step(m, i).trace[|m.trace|..] && e.Sent?) <==>
              m.pc.LoopRead? && i.SensorsRead? && Truthy(i.value)
    ensures m.pc.LoopRead? && i.SensorsRead? && Truthy(i.value) ==>
              Step(m, i).trace[|m.trace|..] == [Sent(Body(i.now, i.value))]
  {
    var added := Step(m, i).trace[|m.trace|..];
    if m.pc.LoopRead? && i.SensorsRead? && Truthy(i.value) {
      assert added[0].Sent?;
    }
  }

  /** Whether the update reports an error or not, the startup continues the same way. */
  lemma UpdateErrorIgnored(m: Machine)
    requires m.pc.StartUpdate?
    ensures Step(m, Done) == Step(m, Threw)
    ensures Step(m, Done).pc.StartClose?
  {
  }

  /** Whether sending succeeds or fails, the cycle continues the same way. */
  lemma SendErrorIgnored(m: Machine)
    requires m.pc.LoopSend?
    ensures Step(m, Done) == Step(m, Threw)
    ensures Step(m, Done).trace == m.trace + CloseAndSleep
  {
  }

  /** A failed sensor read is handled as a falsy reading: no message, close, sleep. */
  lemma ReadErrorIsNoReading(m: Machine, now: int)
    requires m.pc.LoopRead?
    ensures Step(m, Threw) == Step(m, SensorsRead(Null, now))
    ensures Step(m, Threw) == Machine(LoopSleep, m.trace + CloseAndSleep)
  {
  }

  // ---------------------------------------------------------------------------
  // Whole cycles
  // ---------------------------------------------------------------------------

  /** Running answers one after another is running them together. */
  lemma {:induction false} RunAppend(m: Machine, a: seq<Input>, b: seq<Input>)
    requires Accepts(m, a) && Accepts(Run(m, a), b)
    ensures Accepts(m, a + b) && Run(m, a + b) == Run(Run(m, a), b)
    decreases |a|
  {
    if |a| > 0 {
      assert (a + b)[0] == a[0] && (a + b)[1..] == a[1..] + b;
      RunAppend(Step(m, a[0]), a[1..], b);
    } else {
      assert a + b == b;
    }
  }

  /** The answers a loop iteration that opens its session consumes. */
  function CycleInputs(read: Input, send: Input): seq<Input> {
    if read.SensorsRead? && Truthy(read.value) then [Done, Done, read, send, Done]
    else [Done, Done, read, Done]
  }

  /**
   A loop iteration whose open succeeds: it opens one session, sends the
   telemetry body exactly when the reading is truthy, closes the session
   exactly once whatever the read or send outcome, waits 300000 ms, and is
   back at the top of the loop with no session open.
   */
  lemma OpenedCycle(t: seq<Event>, read: Input, send: Input)
    requires read.SensorsRead? || read.Threw?
    requires send.Done? || send.Threw?
    ensures Accepts(Machine(LoopCreate, t), CycleInputs(read, send))
    ensures Run(Machine(LoopCreate, t), CycleInputs(read, send)) ==
              Machine(LoopCreate, t + [Opened]
                + (if read.SensorsRead? && Truthy(read.value) then [Sent(Body(read.now, read.value))] else [])
                + [Closed, Slept(300000)])
  {
    if read.SensorsRead? && Truthy(read.value) {
      CycleWithReading(t, read, send);
    } else {
      CycleWithoutReading(t, read);
    }
  }

  /** A cycle with a truthy reading: open, send, close, sleep. */
  lemma CycleWithReading(t: seq<Event>, read: Input, send: Input)
    requires read.SensorsRead? && Truthy(read.value)
    requires send.Done? || send.Threw?
    ensures Accepts(Machine(LoopCreate, t), [Done, Done, read, send, Done])
    ensures Run(Machine(LoopCreate, t), [Done, Done, read, send, Done]) ==
              Machine(LoopCreate, t + [Opened] + [Sent(Body(read.now, read.value))] + [Closed, Slept(300000)])
  {
    var m0 := Machine(LoopCreate, t);
    var m2 := Machine(LoopRead, t + [Opened]);
    assert Step(Step(m0, Done), Done) == m2;
    var sent := [Sent(Body(read.now, read.value))];
    var m3 := Machine(LoopSend, t + [Opened] + sent);
    assert Step(m2, read) == m3;
    assert Step(Step(m3, send), Done) == Machine(LoopCreate, t + [Opened] + sent + [Closed, Slept(300000)]);
    RunSteps5(m0, [Done, Done, read, send, Done]);
  }

  /** A cycle with no reading or a falsy one: open, close, sleep. */
  lemma CycleWithoutReading(t: seq<Event>, read: Input)
    requires read.Threw? || (read.SensorsRead? && !Truthy(read.value))
    ensures Accepts(Machine(LoopCreate, t), [Done, Done, read, Done])
    ensures Run(Machine(LoopCreate, t), [Done, Done, read, Done]) ==
              Machine(LoopCreate, t + [Opened] + [] + [Closed, Slept(300000)])
  {
    var m0 := Machine(LoopCreate, t);
    var m2 := Machine(LoopRead, t + [Opened]);
    assert Step(Step(m0, Done), Done) == m2;
    assert t + [Opened] + CloseAndSleep == t + [Opened] + [] + [Closed, Slept(300000)];
    assert Step(Step(m2, read), Done) == Machine(LoopCreate, t + [Opened] + [] + [Closed, Slept(300000)]);
    RunSteps4(m0, [Done, Done, read, Done]);
  }

  /** One answer in front of others: step, then run the rest. */
  lemma RunCons(m: Machine, i: Input, rest: seq<Input>)
    requires Answers(m.pc, i) && Accepts(Step(m, i), rest)
    ensures Accepts(m, [i] + rest) && Run(m, [i] + rest) == Run(Step(m, i), rest)
  {
    assert ([i] + rest)[0] == i && ([i] + rest)[1..] == rest;
  }

  /** Two answers, one step each. */
  lemma RunSteps2(m: Machine, ins: seq<Input>)
    requires |ins| == 2
    requires Answers(m.pc, ins[0])
    requires Answers(Step(m, ins[0]).pc, ins[1])
    ensures Accepts(m, ins)
    ensures Run(m, ins) == Step(Step(m, ins[0]), ins[1])
  {
    var m1 := Step(m, ins[0]);
    var m2 := Step(m1, ins[1]);
    assert Accepts(m2, []) && Run(m2, []) == m2;
    RunCons(m1, ins[1], []);
    assert [ins[1]] + [] == ins[1..];
    RunCons(m, ins[0], ins[1..]);
    assert [ins[0]] + ins[1..] == ins;
  }

  /** Three answers, one step each. */
  lemma RunSteps3(m: Machine, ins: seq<Input>)
    requires |ins| == 3
    requires Answers(m.pc, ins[0])
    requires Answers(Step(m, ins[0]).pc, ins[1])
    requires Answers(Step(Step(m, ins[0]), ins[1]).pc, ins[2])
    ensures Accepts(m, ins)
    ensures Run(m, ins) == Step(Step(Step(m, ins[0]), ins[1]), ins[2])
  {
    var rest := ins[1..];
    assert rest[0] == ins[1] && rest[1] == ins[2];
    RunSteps2(Step(m, ins[0]), rest);
    RunCons(m, ins[0], rest);
    assert [ins[0]] + rest == ins;
  }

  /** Four answers, one step each. */
  lemma RunSteps4(m: Machine, ins: seq<Input>)
    requires |ins| == 4
    requires Answers(m.pc, ins[0])
    requires Answers(Step(m, ins[0]).pc, ins[1])
    requires Answers(Step(Step(m, ins[0]), ins[1]).pc, ins[2])
    requires Answers(Step(Step(Step(m, ins[0]), ins[1]), ins[2]).pc, ins[3])
    ensures Accepts(m, ins)
    ensures Run(m, ins) == Step(Step(Step(Step(m, ins[0]), ins[1]), ins[2]), ins[3])
  {
    var rest := ins[1..];
    assert rest[0] == ins[1] && rest[1] == ins[2] && rest[2] == ins[3];
    RunSteps3(Step(m, ins[0]), rest);
    RunCons(m, ins[0], rest);
    assert [ins[0]] + rest == ins;
  }

  /** Five answers, one step each. */
  lemma RunSteps5(m: Machine, ins: seq<Input>)
    requires |ins| == 5
    requires Answers(m.pc, ins[0])
    requires Answers(Step(m, ins[0]).pc, ins[1])
    requires Answers(Step(Step(m, ins[0]), ins[1]).pc, ins[2])
    requires Answers(Step(Step(Step(m, ins[0]), ins[1]), ins[2]).pc, ins[3])
    requires Answers(Step(Step(Step(Step(m, ins[0]), ins[1]), ins[2]), ins[3]).pc, ins[4])
    ensures Accepts(m, ins)
    ensures Run(m, ins) == Step(Step(Step(Step(Step(m, ins[0]), ins[1]), ins[2]), ins[3]), ins[4])
  {
    var rest := ins[1..];
    assert rest[0] == ins[1] && rest[1] == ins[2] && rest[2] == ins[3] && rest[3] == ins[4];
    RunSteps4(Step(m, ins[0]), rest);
    RunCons(m, ins[0], rest);
    assert [ins[0]] + rest == ins;
  }

  /**
   A loop iteration whose open fails returns from runApp: no session was
   opened, nothing is closed, and no further iteration can run.
   */
  lemma FailedOpenEndsLoop(t: seq<Event>, i: Input)
    ensures Accepts(Machine(LoopCreate, t), [Done, Threw])
    ensures Run(Machine(LoopCreate, t), [Done, Threw]) == Machine(Returned, t)
    ensures !Answers(Returned, i)
  {
    assert [Done, Threw][1..] == [Threw];
  }

  // ---------------------------------------------------------------------------
  // Startup
  // ---------------------------------------------------------------------------

  /**
   Startup that opens its session and parses /proc/cpuinfo reports the
   details, closes the session whether or not the update failed, and only
   then starts the loop, with no session open.
   */
  lemma StartupReports(contents: string, info: SysInfo, update: Input)
    requires GetSystemInfo(contents) == Ok(info)
    requires update.Done? || update.Threw?
    ensures Accepts(Init, [Done, Done, Done, SysInfoOutcome(contents), update, Done])
    ensures Run(Init, [Done, Done, Done, SysInfoOutcome(contents), update, Done]) ==
              Machine(LoopCreate, [Opened, Reported(info), Closed])
  {
    var loaded := SysInfoOutcome(contents);
    assert loaded == Loaded(info);
    var ins := [Done, Done, Done, loaded, update, Done];
    var first, last := ins[..4], ins[4..];
    var m4 := Machine(StartUpdate, [Opened, Reported(info)]);
    var m6 := Machine(LoopCreate, [Opened, Reported(info), Closed]);
    assert Accepts(Init, first) && Run(Init, first) == m4 by {
      RunSteps4(Init, first);
    }
    assert Accepts(m4, last) && Run(m4, last) == m6 by {
      assert Step(m4, update) == Machine(StartClose, m6.trace) by {
        assert [Opened, Reported(info)] + [Closed] == m6.trace;
      }
      RunCons(Step(m4, update), Done, []);
      RunCons(m4, update, [Done]);
      assert last == [update] + [Done] && [Done] + [] == [Done];
    }
    assert first + last == ins;
    RunAppend(Init, first, last);
  }

  /** A failed startup open returns normally: nothing is reported and the loop starts. */
  lemma StartupOpenFails()
    ensures Accepts(Init, [Done, Threw])
    ensures Run(Init, [Done, Threw]) == Machine(LoopCreate, [])
  {
    assert [Done, Threw][1..] == [Threw];
  }

  /**
   getTwin throwing after the open ends the process: exit() runs with the
   session still open and the loop never starts.
   */
  lemma StartupTwinFails()
    ensures Accepts(Init, [Done, Done, Threw])
    ensures Run(Init, [Done, Done, Threw]) == Machine(Exited, [Opened, Exit])
  {
    assert [Done, Done, Threw][1..] == [Done, Threw] && [Done, Threw][1..] == [Threw];
  }

  /**
   A /proc/cpuinfo that does not parse, or a failed read, ends the process
   before the loop, with the session still open.
   */
  lemma StartupParseFails(contents: string)
    requires GetSystemInfo(contents).Err?
    ensures Accepts(Init, [Done, Done, Done, SysInfoOutcome(contents)])
    ensures Run(Init, [Done, Done, Done, SysInfoOutcome(contents)]) == Machine(Exited, [Opened, Exit])
    ensures Run(Init, [Done, Done, Done, Threw]) == Machine(Exited, [Opened, Exit])
  {
    assert SysInfoOutcome(contents) == Threw;
    RunSteps4(Init, [Done, Done, Done, Threw]);
  }
}
