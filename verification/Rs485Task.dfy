/** main/rs485_discrete.c as written: the shared intent, the two modules and the worker loop,
    with the bus transactions of Rtu. Each worker method takes the comm-task calls that land
    in its gaps between lock sections and the bytes the line delivers, and is proved to be a
    run of the step system of Rs485 over exactly that interleaving. */
module Rs485Task {
  import opened Words
  import opened Options
  import opened ModbusCrc
  import opened Rtu
  import opened Rs485
  import opened Rs485Safety

  const WAVESHARE_UNIT := 1
  const M31_UNIT := 2

  /** `s_bus`, guarded by its lock: every method is one lock section. */
  class Bus {
    var enabled: bool
    var desired: Word64
    var state: State

    function View(): Shared
      reads this
    {
      Shared(enabled, desired, state)
    }

    constructor ()
      ensures View() == OFF
    {
      enabled, desired, state := false, Zero(64), State(Zero(64), Zero(64), false, false);
    }

    /** backend_set_enabled */
    method SetEnabled(value: bool)
      modifies this
      ensures View() == Enable(old(View()), value)
      ensures enabled == value && state == old(state) && forall c :: 0 <= c < 64 ==> !desired[c]
    {
      enabled := value;
      desired := Zero(64);
    }

    /** backend_set_outputs */
    method SetOutputs(mask: Word64, values: Word64)
      modifies this`desired
      ensures View() == SetIntent(old(View()), mask, values)
      ensures forall c :: 0 <= c < 64 ==>
                desired[c] == if enabled && state.link && mask[c] then values[c] else old(desired)[c]
    {
      if enabled && state.link {
        var merged := Or(And(desired, Not(mask)), And(values, mask));
        if merged != desired {
          desired := merged;
        }
      }
    }

    /** shared_target */
    method SharedTarget(outputs: nat) returns (target: Word64)
      ensures target == Target(View(), outputs)
      ensures forall c :: 0 <= c < 64 ==> target[c] == (c < outputs && enabled && desired[c])
    {
      target := if enabled then desired else Zero(64);
      if outputs < 64 {
        target := And(target, Low(64, outputs));
      }
    }

    /** shared_publish */
    method SharedPublish(next: State)
      modifies this`desired, this`state
      ensures View() == Publish(old(View()), next)
    {
      if state.link && !next.link && enabled {
        desired := next.relays;
      }
      state := next;
    }

    /** The comm task running between two worker steps. */
    method CommTask(calls: seq<Event>)
      modifies this
      ensures View() == Called(old(View()), calls)
      decreases calls
    {
      if calls != [] {
        match calls[0] {
          case SetEnabled(value) => SetEnabled(value);
          case SetOutputs(mask, values) => SetOutputs(mask, values);
          case _ =>
        }
        CommTask(calls[1..]);
      }
    }
  }

  /** The shared state after a list of comm-task calls; other events are not calls. */
  function Called(s: Shared, calls: seq<Event>): Shared
    decreases calls
  {
    if calls == [] then s
    else
      var s1 := match calls[0]
        case SetEnabled(value) => Enable(s, value)
        case SetOutputs(mask, values) => SetIntent(s, mask, values)
        case _ => s;
      Called(s1, calls[1..])
  }

  predicate OnlyCalls(es: seq<Event>) {
    forall i :: 0 <= i < |es| ==> es[i].SetEnabled? || es[i].SetOutputs?
  }

  lemma {:induction false} CallsOnlyTouchShared(s: Sys, calls: seq<Event>)
    requires OnlyCalls(calls)
    ensures Run(s, calls) == s.(shared := Called(s.shared, calls))
    decreases calls
  {
    if calls != [] {
      CallsOnlyTouchShared(Step(s, calls[0]), calls[1..]);
    }
  }

  /** One output module: the per-module fields of rs485_worker_t. */
  class Module {
    const unit: nat
    const outputs: Width
    var relays: Word32
    var blocked: bool
    var failures: nat
    var online: bool

    function View(): Device
      reads this
    {
      Device(outputs, relays, blocked, failures, online)
    }

    constructor (unit: nat, outputs: Width)
      ensures View() == Fresh(outputs) && this.unit == unit
    {
      this.unit, this.outputs := unit, outputs;
      relays, blocked, failures, online := Zero(32), false, 0, false;
    }

    /** update_link */
    method UpdateLink(ok: bool)
      modifies this`failures, this`online
      ensures View() == Rs485.UpdateLink(old(View()), ok)
    {
      if ok {
        failures := 0;
        online := true;
        return;
      }
      if failures < LINK_FAILURES {
        failures := failures + 1;
      }
      if online && failures >= LINK_FAILURES {
        online := false;
      }
    }

    /** The transaction of apply_device_output: FC05, and after an echo FC01. */
    method Write(channel: nat, on: bool, echo: Line, answer: Line)
      returns (acked: bool, readback: Option<Word32>, ghost sent: seq<seq<Octet>>)
      requires outputs > 0
      modifies this
      ensures acked == WriteOutcome(unit, channel, on, echo)
      ensures readback == if acked then ReadOutcome(unit, READ_COILS, outputs, answer) else None
      ensures View() == AfterWrite(old(View()), acked, readback)
      ensures sent == [Rtu.Request(unit, WRITE_SINGLE_COIL, channel, if on then COIL_ON else 0)]
                      + (if acked then [Rtu.Request(unit, READ_COILS, 0, outputs)] else [])
    {
      var request;
      acked, request := WriteCoil(unit, channel, on, echo);
      sent := [request];
      readback := None;
      if acked {
        readback, request := ReadBits(unit, READ_COILS, 0, outputs, answer);
        sent := sent + [request];
      }
      if readback.Some? {
        MaskedTwice(unit, outputs, answer);
        relays := readback.value;
        blocked := false;
      } else {
        blocked := true;
      }
      UpdateLink(readback.Some?);
    }

    /** The coil poll of poll_worker. */
    method Poll(answer: Line) returns (reply: Option<Word32>, ghost sent: seq<seq<Octet>>)
      requires outputs > 0
      modifies this
      ensures sent == [Rtu.Request(unit, READ_COILS, 0, outputs)]
      ensures reply == ReadOutcome(unit, READ_COILS, outputs, answer)
      ensures View() == AfterPoll(old(View()), reply)
    {
      var request;
      reply, request := ReadBits(unit, READ_COILS, 0, outputs, answer);
      sent := [request];
      if reply.Some? {
        MaskedTwice(unit, outputs, answer);
        relays := reply.value;
      }
      blocked := reply.None?;
      UpdateLink(reply.Some?);
    }

    lemma MaskedTwice(unit: nat, count: Width, line: Line)
      requires count > 0
      ensures var r := ReadOutcome(unit, READ_COILS, count, line); r.Some? ==> Masked(r.value, count) == r.value
    {
      ReadWithinCount(unit, READ_COILS, count, line);
      var r := ReadOutcome(unit, READ_COILS, count, line);
      if r.Some? {
        assert Masked(r.value, count) == r.value;
      }
    }
  }

  // ---- one pass of the worker loop --------------------------------------------------------------

  /** What surrounds the bus transaction of one pass: the comm-task calls before and after
      it, and what the line delivers to its two exchanges. */
  datatype Env = Env(before: seq<Event>, echo: Line, answer: Line, after: seq<Event>) {
    predicate Valid() {
      OnlyCalls(before) && OnlyCalls(after)
    }
  }

  function UnitAddress(u: Unit): nat {
    match u case Waveshare => WAVESHARE_UNIT case M31 => M31_UNIT
  }

  /** The outcome of the transaction the worker is at. */
  function Transaction(s: Sys, env: Env): Event
    requires s.at.Writing? ==> Dev(s.worker, s.at.u).outputs > 0
    requires s.at.Polling? ==> !Skipped(s.worker, s.at.p)
  {
    match s.at
    case Writing(u, channel, on) =>
      var acked := WriteOutcome(UnitAddress(u), channel, on, env.echo);
      var outputs := Dev(s.worker, u).outputs;
      Wrote(acked, if acked then ReadOutcome(UnitAddress(u), READ_COILS, outputs, env.answer) else None)
    case Polling(PollWaveshare) =>
      Polled(ReadOutcome(WAVESHARE_UNIT, READ_COILS, s.worker.waveshare.outputs, env.answer))
    case Polling(PollM31) => Polled(ReadOutcome(M31_UNIT, READ_COILS, s.worker.m31.outputs, env.answer))
    case Polling(PollInputs) => Polled(ReadOutcome(M31_UNIT, READ_INPUTS, s.worker.inputs, env.answer))
    case _ => Published
  }

  /** From the target snapshot to the end of the pass. */
  function Finish(s: Sys, env: Env): Sys
    requires s.at.Writing? ==> Dev(s.worker, s.at.u).outputs > 0
    requires s.at.Polling? ==> !Skipped(s.worker, s.at.p)
  {
    Step(Run(Step(Run(s, env.before), Transaction(s, env)), env.after), Published)
  }

  lemma SnapshotChoice(s: Sys, due: bool)
    ensures var t := Targets(s);
            var w := s.worker;
            && (Pending(w.waveshare, t.0) ==> AtSnapshot(s, due) == s.(at := WriteFor(Waveshare, w.waveshare, t.0)))
            && (!Pending(w.waveshare, t.0) && Pending(w.m31, t.1) ==>
                  AtSnapshot(s, due) == s.(at := WriteFor(M31, w.m31, t.1)))
            && (AtSnapshot(s, due).at.Writing? ==> s.at.Writing? || Pending(w.waveshare, t.0) || Pending(w.m31, t.1))
  {
  }

  class Task {
    const bus: Bus
    const waveshare: Module
    const m31: Module
    const inputs: Width
    var inputState: Word32
    var inputOk: bool
    var phase: Phase
    ghost var at: Control

    ghost function View(): Sys
      reads this, bus, waveshare, m31
    {
      Sys(bus.View(), Worker(waveshare.View(), m31.View(), inputs, inputState, inputOk), phase, at)
    }

    predicate Wired() {
      waveshare != m31 && waveshare.unit == WAVESHARE_UNIT && m31.unit == M31_UNIT
    }

    /** The task after discovery. */
    constructor (outputs1: Width, outputs2: Width, inputs: Width)
      ensures Wired() && View() == Boot(outputs1, outputs2, inputs)
    {
      bus := new Bus();
      waveshare := new Module(WAVESHARE_UNIT, outputs1);
      m31 := new Module(M31_UNIT, outputs2);
      this.inputs := inputs;
      inputState, inputOk, phase := Zero(32), false, PollWaveshare;
      at := if outputs1 + outputs2 == 0 then Stopped else Top;
    }

    /** worker_publish */
    method WorkerPublish()
      requires at == Publishing
      modifies this`at, bus
      ensures View() == Step(old(View()), Published)
    {
      var merged := Or(Resize(waveshare.relays, 64), Shl(Resize(m31.relays, 64), waveshare.outputs));
      var link := (waveshare.outputs > 0 && waveshare.online) || (m31.outputs > 0 && m31.online);
      var inputValid := inputs > 0 && m31.online && inputOk;
      bus.SharedPublish(State(merged, Resize(inputState, 64), inputValid, link));
      at := Top;
    }

    /** apply_device_output */
    method ApplyDeviceOutput(u: Unit, target: Word32, env: Env) returns (busy: bool, ghost sent: seq<seq<Octet>>)
      requires Wired() && at == Top && env.Valid()
      modifies this`at, bus, waveshare, m31
      ensures busy == Pending(Dev(old(View()).worker, u), target)
      ensures !busy ==> View() == old(View()) && sent == []
      ensures busy ==> var s := old(View()).(at := WriteFor(u, Dev(old(View()).worker, u), target));
                       View() == Finish(s, env) && sent == Requests(s, env)
    {
      var device := if u == Waveshare then waveshare else m31;
      var changed := And(Xor(device.relays, target), Mask32(device.outputs));
      sent := [];
      if device.outputs == 0 || First(changed) == 32 || !device.online || device.blocked {
        return false, sent;
      }
      var channel := First(changed);
      at := Writing(u, channel, target[channel]);
      sent := WriteAndPublish(u, channel, target[channel], env);
      busy := true;
    }

    /** The transaction itself; `s` is the state at the target snapshot. */
    method WriteNow(u: Unit, channel: nat, on: bool, env: Env, ghost s: Sys) returns (ghost sent: seq<seq<Octet>>)
      requires Wired() && at == Writing(u, channel, on) && Dev(View().worker, u).outputs > 0
      requires s.at == at && s.worker == View().worker
      modifies this`at, waveshare, m31
      ensures View() == Step(old(View()), Transaction(s, env)) && at == Publishing && sent == Requests(s, env)
    {
      var device := if u == Waveshare then waveshare else m31;
      var acked, readback;
      acked, readback, sent := device.Write(channel, on, env.echo, env.answer);
      at := Publishing;
    }

    /** The rest of apply_device_output once the write is chosen. */
    method WriteAndPublish(u: Unit, channel: nat, on: bool, env: Env) returns (ghost sent: seq<seq<Octet>>)
      requires Wired() && at == Writing(u, channel, on) && env.Valid() && Dev(View().worker, u).outputs > 0
      modifies this`at, bus, waveshare, m31
      ensures View() == Finish(old(View()), env) && sent == Requests(old(View()), env)
    {
      ghost var s := View();
      CallsOnlyTouchShared(s, env.before);
      bus.CommTask(env.before);
      sent := WriteNow(u, channel, on, env, s);
      CallsOnlyTouchShared(View(), env.after);
      bus.CommTask(env.after);
      WorkerPublish();
    }

    /** apply_pending_output */
    method ApplyPendingOutput(env: Env) returns (busy: bool, ghost sent: seq<seq<Octet>>)
      requires Wired() && at == Top && env.Valid()
      modifies this`at, bus, waveshare, m31
      ensures busy == AtSnapshot(old(View()), false).at.Writing?
      ensures !busy ==> View() == old(View()) && sent == []
      ensures busy ==> var s := AtSnapshot(old(View()), false);
                       Dev(s.worker, s.at.u).outputs > 0 && View() == Finish(s, env) && sent == Requests(s, env)
    {
      var target := bus.SharedTarget(waveshare.outputs + m31.outputs);
      assert Shr(target, 0) == target;
      var target1 := And(Resize(target, 32), Mask32(waveshare.outputs));
      var target2 := And(Resize(Shr(target, waveshare.outputs), 32), Mask32(m31.outputs));
      assert Targets(View()) == (target1, target2);
      SnapshotChoice(View(), false);
      busy, sent := ApplyDeviceOutput(Waveshare, target1, env);
      if !busy {
        busy, sent := ApplyDeviceOutput(M31, target2, env);
      }
    }

    /** The skips of poll_worker. */
    method SkipAbsent()
      requires at == Top && phase != PollComplete
      modifies this`phase, this`inputOk
      ensures var (w, p) := SkipTo(old(View()).worker, old(phase)); View() == old(View()).(worker := w, phase := p)
      ensures !Skipped(View().worker, phase)
    {
      while phase != PollComplete && ((phase == PollWaveshare && waveshare.outputs == 0)
                                      || (phase == PollM31 && m31.outputs == 0)
                                      || (phase == PollInputs && (inputs == 0 || !m31.online)))
        invariant SkipTo(View().worker, phase) == SkipTo(old(View()).worker, old(phase))
        decreases match phase case PollWaveshare => 3 case PollM31 => 2 case PollInputs => 1 case PollComplete => 0
      {
        if phase == PollInputs {
          inputOk := false;
        }
        phase := Next(phase);
      }
    }

    /** The poll once its phase is chosen, with the gaps around it, and the publish. */
    method ReadAndPublish(env: Env) returns (ghost sent: seq<seq<Octet>>)
      requires Wired() && at == Polling(phase) && env.Valid() && !Skipped(View().worker, phase) && phase != PollComplete
      modifies this, bus, waveshare, m31
      ensures View() == Finish(old(View()), env) && sent == [ReadRequest(old(View()))]
    {
      ghost var s := View();
      CallsOnlyTouchShared(s, env.before);
      bus.CommTask(env.before);
      sent := Read(env);
      assert View() == Step(Run(s, env.before), Transaction(s, env));
      CallsOnlyTouchShared(View(), env.after);
      bus.CommTask(env.after);
      WorkerPublish();
    }

    /** poll_worker: skip what is absent, make one read, publish. */
    method PollWorker(env: Env) returns (ghost sent: seq<seq<Octet>>)
      requires Wired() && at == Top && env.Valid() && phase != PollComplete
      modifies this, bus, waveshare, m31
      ensures var (w, p) := SkipTo(old(View()).worker, old(phase));
              var s := old(View()).(worker := w, phase := p, at := Polling(p));
              && View() == (if p == PollComplete then s.(at := Top) else Finish(s, env))
              && sent == (if p == PollComplete then [] else [ReadRequest(s)])
    {
      SkipAbsent();
      sent := [];
      if phase != PollComplete {
        at := Polling(phase);
        sent := ReadAndPublish(env);
      }
    }

    /** FC02 on the inputs of the M31. */
    method ReadInputs(answer: Line) returns (ghost sent: seq<seq<Octet>>)
      requires inputs > 0
      modifies this`inputState, this`inputOk
      ensures sent == [Rtu.Request(M31_UNIT, READ_INPUTS, 0, inputs)]
      ensures View().worker == AfterInputs(old(View().worker), ReadOutcome(M31_UNIT, READ_INPUTS, inputs, answer))
    {
      var reply, request := ReadBits(M31_UNIT, READ_INPUTS, 0, inputs, answer);
      if reply.Some? {
        inputState := Masked(reply.value, inputs);
      }
      inputOk := reply.Some?;
      sent := [request];
    }

    /** The read of the current poll phase. */
    method Read(env: Env) returns (ghost sent: seq<seq<Octet>>)
      requires Wired() && at == Polling(phase) && !Skipped(View().worker, phase) && phase != PollComplete
      modifies this, waveshare, m31
      ensures View() == Step(old(View()), Transaction(old(View()), env))
      ensures at == Publishing && sent == [ReadRequest(old(View()))]
    {
      var reply;
      if phase == PollWaveshare {
        reply, sent := waveshare.Poll(env.answer);
      } else if phase == PollM31 {
        reply, sent := m31.Poll(env.answer);
      } else {
        sent := ReadInputs(env.answer);
      }
      phase := Next(phase);
      at := Publishing;
    }

    /** The rest of a pass that finds nothing to write. */
    method PollOrWait(due: bool, env: Env) returns (ghost sent: seq<seq<Octet>>)
      requires Wired() && at == Top && env.Valid() && !AtSnapshot(View(), due).at.Writing?
      modifies this, bus, waveshare, m31
      ensures var s := AtSnapshot(old(View()), due);
              && !s.at.Writing? && (s.at.Polling? ==> !Skipped(s.worker, s.at.p))
              && View() == (if s.at == Top then s else Finish(s, env))
              && sent == (if s.at.Polling? then [ReadRequest(s)] else [])
    {
      NothingPending(View(), due);
      sent := [];
      if phase != PollComplete {
        sent := PollWorker(env);
        return;
      }
      if due {
        phase := PollWaveshare;
      }
    }

    /** One pass of the endless loop of rs485_task; `due` tells whether the poll timer ran out. */
    method Pass(due: bool, env: Env) returns (ghost sent: seq<seq<Octet>>)
      requires Wired() && at == Top && env.Valid()
      modifies this, bus, waveshare, m31
      ensures var s := AtSnapshot(old(View()), due);
              && (s.at.Writing? ==> Dev(s.worker, s.at.u).outputs > 0)
              && (s.at.Polling? ==> !Skipped(s.worker, s.at.p))
              && View() == (if s.at == Top then s else Finish(s, env))
              && sent == Frames(s, env)
    {
      WritesFirst(View(), due);
      var busy;
      busy, sent := ApplyPendingOutput(env);
      if !busy {
        sent := PollOrWait(due, env);
      }
    }
  }

  /** A pending write goes first, whatever the poll timer says. */
  lemma WritesFirst(s: Sys, due: bool)
    requires s.at == Top
    ensures AtSnapshot(s, false).at.Writing? ==> AtSnapshot(s, due) == AtSnapshot(s, false)
    ensures AtSnapshot(s, false).at.Writing? <==> AtSnapshot(s, due).at.Writing?
  {
  }

  lemma NothingPending(s: Sys, due: bool)
    requires s.at == Top && !AtSnapshot(s, due).at.Writing?
    ensures var (w, p) := SkipTo(s.worker, s.phase);
            && AtSnapshot(s, due)
            == (if s.phase == PollComplete then (if due then s.(phase := PollWaveshare) else s)
                else if p == PollComplete then s.(worker := w, phase := p)
                else s.(worker := w, phase := p, at := Polling(p)))
            && !Skipped(w, p)
  {
    SkipKeepsView(s.worker, s.phase);
  }

  /** The frames a write puts on the wire. */
  function Requests(s: Sys, env: Env): seq<seq<Octet>>
    requires s.at.Writing? && Dev(s.worker, s.at.u).outputs > 0
  {
    var unit := UnitAddress(s.at.u);
    [Rtu.Request(unit, WRITE_SINGLE_COIL, s.at.channel, if s.at.on then COIL_ON else 0)]
    + (if Transaction(s, env).acked then [Rtu.Request(unit, READ_COILS, 0, Dev(s.worker, s.at.u).outputs)] else [])
  }

  /** The request of the poll the worker is at. */
  function ReadRequest(s: Sys): seq<Octet>
    requires s.at.Polling?
  {
    match s.at.p
    case PollWaveshare => Rtu.Request(WAVESHARE_UNIT, READ_COILS, 0, s.worker.waveshare.outputs)
    case PollM31 => Rtu.Request(M31_UNIT, READ_COILS, 0, s.worker.m31.outputs)
    case _ => Rtu.Request(M31_UNIT, READ_INPUTS, 0, s.worker.inputs)
  }

  /** All frames of a pass, from its target snapshot on. */
  function Frames(s: Sys, env: Env): seq<seq<Octet>>
    requires s.at.Writing? ==> Dev(s.worker, s.at.u).outputs > 0
  {
    if s.at.Writing? then Requests(s, env) else if s.at.Polling? then [ReadRequest(s)] else []
  }

  /** A pass is a run of the step system over its interleaving, so what holds of all runs
      holds of the task. */
  lemma PassIsRun(s: Sys, due: bool, env: Env)
    requires s.at == Top
    requires var s1 := AtSnapshot(s, due);
             && (s1.at.Writing? ==> Dev(s1.worker, s1.at.u).outputs > 0)
             && (s1.at.Polling? ==> !Skipped(s1.worker, s1.at.p))
    ensures var s1 := AtSnapshot(s, due);
            && Run(s, [Snapshot(due)]) == s1
            && Finish(s1, env)
               == Run(s, [Snapshot(due)] + env.before + [Transaction(s1, env)] + env.after + [Published])
  {
    var s1 := AtSnapshot(s, due);
    var t := Transaction(s1, env);
    RunOne(s, Snapshot(due));
    RunConcat(s, [Snapshot(due)], env.before);
    RunConcat(s, [Snapshot(due)] + env.before, [t]);
    RunOne(Run(s1, env.before), t);
    RunConcat(s, [Snapshot(due)] + env.before + [t], env.after);
    RunConcat(s, [Snapshot(due)] + env.before + [t] + env.after, [Published]);
    RunOne(Run(Step(Run(s1, env.before), t), env.after), Published);
  }

  // ---- the frames of any number of passes --------------------------------------------------------

  /** One pass: whether the poll timer ran out, and what surrounds its transaction. */
  datatype Turn = Turn(due: bool, env: Env)

  /** The interleaving of one pass. */
  function PassEvents(s: Sys, turn: Turn): seq<Event>
    requires Inv(s) && s.at == Top
  {
    SnapshotKeepsInv(s, turn.due);
    var s1 := AtSnapshot(s, turn.due);
    if s1.at == Top then [Snapshot(turn.due)]
    else [Snapshot(turn.due)] + turn.env.before + [Transaction(s1, turn.env)] + turn.env.after + [Published]
  }

  /** Every pass ends between two passes. */
  lemma PassEnds(s: Sys, turn: Turn)
    requires Inv(s) && s.at == Top && turn.env.Valid()
    ensures var s' := Run(s, PassEvents(s, turn)); Inv(s') && s'.at == Top
  {
    RunKeepsInv(s, PassEvents(s, turn));
    SnapshotKeepsInv(s, turn.due);
    var s1 := AtSnapshot(s, turn.due);
    RunOne(s, Snapshot(turn.due));
    if s1.at != Top {
      PassIsRun(s, turn.due, turn.env);
      FinishEnds(s1, turn.env);
    }
  }

  lemma FinishEnds(s: Sys, env: Env)
    requires (s.at.Writing? && Dev(s.worker, s.at.u).outputs > 0) || (s.at.Polling? && !Skipped(s.worker, s.at.p))
    requires env.Valid() && (s.at.Polling? ==> s.at.p != PollComplete)
    ensures Finish(s, env).at == Top
  {
    CallsOnlyTouchShared(s, env.before);
    CallsOnlyTouchShared(Step(Run(s, env.before), Transaction(s, env)), env.after);
  }

  predicate AllValid(turns: seq<Turn>) {
    forall i :: 0 <= i < |turns| ==> turns[i].env.Valid()
  }

  /** The events of a list of passes, and the frames they put on the bus. */
  function Events(s: Sys, turns: seq<Turn>): seq<Event>
    requires Inv(s) && s.at == Top && AllValid(turns)
    decreases |turns|
  {
    if turns == [] then []
    else
      PassEnds(s, turns[0]);
      PassEvents(s, turns[0]) + Events(Run(s, PassEvents(s, turns[0])), turns[1..])
  }

  function AllFrames(s: Sys, turns: seq<Turn>): seq<seq<Octet>>
    requires Inv(s) && s.at == Top && AllValid(turns)
    decreases |turns|
  {
    if turns == [] then []
    else
      PassEnds(s, turns[0]);
      SnapshotKeepsInv(s, turns[0].due);
      Frames(AtSnapshot(s, turns[0].due), turns[0].env) + AllFrames(Run(s, PassEvents(s, turns[0])), turns[1..])
  }

  /** The FC05 requests among frames. */
  function Writes(frames: seq<seq<Octet>>): seq<seq<Octet>> {
    if frames == [] then [] else (if IsWrite(frames[0]) then [frames[0]] else []) + Writes(frames[1..])
  }

  predicate IsWrite(frame: seq<Octet>) {
    |frame| > 1 && frame[1] == Byte(WRITE_SINGLE_COIL)
  }

  /** The FC05 request of a coil write. */
  function CoilFrame(c: Control): seq<Octet> {
    match c
    case Writing(u, channel, on) => Rtu.Request(UnitAddress(u), WRITE_SINGLE_COIL, channel, if on then COIL_ON else 0)
    case _ => []
  }

  function CoilFrames(ws: seq<Control>): seq<seq<Octet>> {
    if ws == [] then [] else [CoilFrame(ws[0])] + CoilFrames(ws[1..])
  }

  lemma {:induction false} WritesConcat(a: seq<seq<Octet>>, b: seq<seq<Octet>>)
    ensures Writes(a + b) == Writes(a) + Writes(b)
    decreases a
  {
    if a == [] {
      assert a + b == b;
    } else {
      assert (a + b)[1..] == a[1..] + b;
      WritesConcat(a[1..], b);
    }
  }

  lemma {:induction false} CallsWriteNothing(s: Sys, calls: seq<Event>)
    requires OnlyCalls(calls)
    ensures CoilWrites(s, calls) == []
    decreases calls
  {
    if calls != [] {
      CallsWriteNothing(Step(s, calls[0]), calls[1..]);
    }
  }

  lemma {:induction false} CoilFramesConcat(a: seq<Control>, b: seq<Control>)
    ensures CoilFrames(a + b) == CoilFrames(a) + CoilFrames(b)
    decreases a
  {
    if a == [] {
      assert a + b == b;
    } else {
      assert (a + b)[1..] == a[1..] + b;
      CoilFramesConcat(a[1..], b);
    }
  }

  /** The function code tells writes from reads. */
  lemma CodeOfRequest(unit: nat, fc: nat, address: nat, operand: nat)
    requires fc == READ_COILS || fc == READ_INPUTS || fc == WRITE_SINGLE_COIL
    ensures IsWrite(Rtu.Request(unit, fc, address, operand)) <==> fc == WRITE_SINGLE_COIL
  {
    CodesDiffer();
    assert Rtu.Request(unit, fc, address, operand)[1] == Byte(fc);
  }

  lemma CodesDiffer()
    ensures Byte(READ_COILS) != Byte(WRITE_SINGLE_COIL) && Byte(READ_INPUTS) != Byte(WRITE_SINGLE_COIL)
  {
    assert !Byte(READ_COILS)[2] by { ThirdBit(READ_COILS); }
    assert !Byte(READ_INPUTS)[2] by { ThirdBit(READ_INPUTS); }
    assert Byte(WRITE_SINGLE_COIL)[2] by { ThirdBit(WRITE_SINGLE_COIL); }
  }

  lemma ThirdBit(v: nat)
    ensures Byte(v)[2] == (v / 2 / 2 % 2 == 1)
  {
    assert OfValue(v, 8)[1..] == OfValue(v / 2, 7);
    assert OfValue(v / 2, 7)[1..] == OfValue(v / 2 / 2, 6);
  }

  /** The write of one pass, if it makes one. */
  lemma PassWrites(s: Sys, turn: Turn)
    requires Inv(s) && s.at == Top && turn.env.Valid()
    ensures var s1 := AtSnapshot(s, turn.due);
            && CoilWrites(s, PassEvents(s, turn)) == (if s1.at.Writing? then [s1.at] else [])
            && (s1.at.Writing? ==> Dev(s1.worker, s1.at.u).outputs > 0)
  {
    SnapshotKeepsInv(s, turn.due);
    var s1, snap := AtSnapshot(s, turn.due), [Snapshot(turn.due)];
    assert CoilWrites(s, snap) == [] && Run(s, snap) == s1 by {
      RunOne(s, Snapshot(turn.due));
      OneWriteAt(s, Snapshot(turn.due));
    }
    if s1.at != Top {
      var t := Transaction(s1, turn.env);
      var tail := turn.env.before + [t] + turn.env.after + [Published];
      assert CoilWrites(s1, tail) == if s1.at.Writing? then [s1.at] else [] by {
        TailWrites(s1, turn.env, t);
      }
      CoilWritesConcat(s, snap, tail);
      Regroup(snap, turn.env.before, [t], turn.env.after, [Published]);
    }
  }

  lemma Regroup(a: seq<Event>, b: seq<Event>, c: seq<Event>, d: seq<Event>, e: seq<Event>)
    ensures a + b + c + d + e == a + (b + c + d + e)
  {
  }

  /** Behind the snapshot, only the transaction can be a write. */
  lemma TailWrites(s: Sys, env: Env, t: Event)
    requires env.Valid() && (t.Wrote? <==> s.at.Writing?)
    ensures CoilWrites(s, env.before + [t] + env.after + [Published]) == if s.at.Writing? then [s.at] else []
  {
    var s1 := Run(s, env.before);
    var s2 := Step(s1, t);
    CallsOnlyTouchShared(s, env.before);
    CallsWriteNothing(s, env.before);
    OneWriteAt(s1, t);
    RunOne(s1, t);
    CallsWriteNothing(s2, env.after);
    OneWriteAt(Run(s2, env.after), Published);
    CoilWritesConcat(s, env.before, [t]);
    RunConcat(s, env.before, [t]);
    CoilWritesConcat(s, env.before + [t], env.after);
    RunConcat(s, env.before + [t], env.after);
    CoilWritesConcat(s, env.before + [t] + env.after, [Published]);
  }

  /** The frames of a coil write: the FC05 frame, and once it is echoed a read. */
  lemma WriteAndRead(write: seq<Octet>, read: seq<Octet>, acked: bool)
    requires IsWrite(write) && !IsWrite(read)
    ensures Writes([write] + (if acked then [read] else [])) == [write]
  {
    OneFrame(write);
    OneFrame(read);
    WritesConcat([write], if acked then [read] else []);
  }

  lemma OneFrame(f: seq<Octet>)
    ensures Writes([f]) == if IsWrite(f) then [f] else []
  {
    assert [f][1..] == [];
  }

  lemma FramesOfPass(s: Sys, env: Env)
    requires s.at.Writing? ==> Dev(s.worker, s.at.u).outputs > 0
    ensures Writes(Frames(s, env)) == CoilFrames(if s.at.Writing? then [s.at] else [])
  {
    if s.at.Writing? {
      FramesOfWrite(s, env);
      assert [s.at][1..] == [];
    } else if s.at.Polling? {
      PollIsRead(s);
      OneFrame(ReadRequest(s));
    }
  }

  lemma FramesOfWrite(s: Sys, env: Env)
    requires s.at.Writing? && Dev(s.worker, s.at.u).outputs > 0
    ensures Writes(Requests(s, env)) == [CoilFrame(s.at)]
  {
    var unit, outputs := UnitAddress(s.at.u), Dev(s.worker, s.at.u).outputs;
    var write, read := CoilFrame(s.at), Rtu.Request(unit, READ_COILS, 0, outputs);
    assert IsWrite(write) by {
      CodeOfRequest(unit, WRITE_SINGLE_COIL, s.at.channel, if s.at.on then COIL_ON else 0);
    }
    assert !IsWrite(read) by {
      CodeOfRequest(unit, READ_COILS, 0, outputs);
    }
    WriteAndRead(write, read, Transaction(s, env).acked);
  }

  lemma PollIsRead(s: Sys)
    requires s.at.Polling?
    ensures !IsWrite(ReadRequest(s))
  {
    CodeOfRequest(WAVESHARE_UNIT, READ_COILS, 0, s.worker.waveshare.outputs);
    CodeOfRequest(M31_UNIT, READ_COILS, 0, s.worker.m31.outputs);
    CodeOfRequest(M31_UNIT, READ_INPUTS, 0, s.worker.inputs);
  }

  /** On the bus: over any list of passes, with any calls in their gaps and any bytes coming back,
      the FC05 frames are exactly those of the coil writes of the run, in order. So what FailSafe
      and NoWriteWhileBlocked say of coil writes they say of frames. */
  lemma {:induction false} FramesAreCoilWrites(s: Sys, turns: seq<Turn>)
    requires Inv(s) && s.at == Top && AllValid(turns)
    ensures Writes(AllFrames(s, turns)) == CoilFrames(CoilWrites(s, Events(s, turns)))
    decreases |turns|
  {
    if turns != [] {
      var es := PassEvents(s, turns[0]);
      var s' := Run(s, es);
      SnapshotKeepsInv(s, turns[0].due);
      var s1 := AtSnapshot(s, turns[0].due);
      PassEnds(s, turns[0]);
      PassWrites(s, turns[0]);
      FramesOfPass(s1, turns[0].env);
      FramesAreCoilWrites(s', turns[1..]);
      WritesConcat(Frames(s1, turns[0].env), AllFrames(s', turns[1..]));
      CoilWritesConcat(s, es, Events(s', turns[1..]));
      CoilFramesConcat(CoilWrites(s, es), CoilWrites(s', Events(s', turns[1..])));
    }
  }
}
