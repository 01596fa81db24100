/** The two-task relay controller of main/rs485_discrete.c as a system of atomic steps. The
    comm task's calls and the worker's two lock sections (target snapshot, publish) are one
    step each; between them the worker makes one bus transaction, whose outcome is arbitrary.
    A run is any list of events: an event that does not fit the worker's position does
    nothing, so every interleaving is a run. */
module Rs485 {
  import opened Words
  import opened Options
  import opened Rtu

  const LINK_FAILURES := 3

  /** The discovery finds at most 32 coils on a module. */
  type Width = n: nat | n <= 32
  type Word64 = w: Word | |w| == 64 witness Zero(64)

  /** What the comm task can see. */
  datatype State = State(relays: Word64, inputs: Word64, inputValid: bool, link: bool)
  datatype Shared = Shared(enabled: bool, desired: Word64, state: State)

  /** The shared state at boot. */
  const OFF := Shared(false, Zero(64), State(Zero(64), Zero(64), false, false))

  /** One output module as the worker knows it. */
  datatype Device = Device(outputs: Width, relays: Word32, blocked: bool, failures: nat, online: bool)
  datatype Worker = Worker(waveshare: Device, m31: Device, inputs: Width, inputState: Word32, inputOk: bool)

  datatype Unit = Waveshare | M31
  datatype Phase = PollWaveshare | PollM31 | PollInputs | PollComplete
  /** Where the worker is between two atomic steps. */
  datatype Control = Top | Writing(u: Unit, channel: nat, on: bool) | Polling(p: Phase) | Publishing | Stopped
  datatype Sys = Sys(shared: Shared, worker: Worker, phase: Phase, at: Control)

  datatype Event =
    | SetEnabled(enabled: bool)
    | SetOutputs(mask: Word64, values: Word64)
    | Snapshot(pollDue: bool)
    | Wrote(acked: bool, readback: Option<Word32>)
    | Polled(reply: Option<Word32>)
    | Published

  // ---- the comm task's calls -----------------------------------------------------------

  /** backend_set_enabled */
  function Enable(s: Shared, enabled: bool): Shared {
    s.(enabled := enabled, desired := Zero(64))
  }

  /** backend_set_outputs */
  function SetIntent(s: Shared, mask: Word64, values: Word64): Shared {
    if s.enabled && s.state.link then s.(desired := Or(And(s.desired, Not(mask)), And(values, mask))) else s
  }

  // ---- splitting the target and merging the readback ----------------------------------------

  function Mask32(count: Width): Word32 {
    if count >= 32 then Not(Zero(32)) else Low(32, count)
  }

  /** shared_target */
  function Target(s: Shared, total: nat): Word64 {
    var target := if s.enabled then s.desired else Zero(64);
    if total < 64 then And(target, Low(64, total)) else target
  }

  function DeviceTarget(target: Word64, first: Width, count: Width): Word32
  {
    And(Resize(Shr(target, first), 32), Mask32(count))
  }

  function Merge(waveshare: Word32, m31: Word32, first: Width): Word64
  {
    Or(Resize(waveshare, 64), Shl(Resize(m31, 64), first))
  }

  /** worker_publish: the snapshot of the worker's view. */
  function Image(w: Worker): State
  {
    State(Merge(w.waveshare.relays, w.m31.relays, w.waveshare.outputs), Resize(w.inputState, 64),
          w.inputs > 0 && w.m31.online && w.inputOk,
          (w.waveshare.outputs > 0 && w.waveshare.online) || (w.m31.outputs > 0 && w.m31.online))
  }

  /** shared_publish: a falling link while enabled turns the readback into the intent. */
  function Publish(s: Shared, state: State): Shared {
    Shared(s.enabled, if s.state.link && !state.link && s.enabled then state.relays else s.desired, state)
  }

  // ---- the worker ------------------------------------------------------------------------------

  /** update_link */
  function UpdateLink(d: Device, ok: bool): Device {
    if ok then d.(failures := 0, online := true)
    else
      var failures := if d.failures < LINK_FAILURES then d.failures + 1 else d.failures;
      d.(failures := failures, online := d.online && failures < LINK_FAILURES)
  }

  function Changed(d: Device, target: Word32): Word32 {
    And(Xor(d.relays, target), Mask32(d.outputs))
  }

  /** `__builtin_ctz`: the number of the lowest set bit; the width when there is none. */
  function First(w: Word): (i: nat)
    ensures i <= |w| && (i < |w| ==> w[i]) && forall j :: 0 <= j < i ==> !w[j]
  {
    if w == [] || w[0] then 0 else 1 + First(w[1..])
  }

  predicate Available(d: Device) {
    d.outputs > 0 && d.online && !d.blocked
  }

  /** apply_device_output up to the choice of a channel. */
  predicate Pending(d: Device, target: Word32) {
    Available(d) && First(Changed(d, target)) < 32
  }

  function WriteFor(u: Unit, d: Device, target: Word32): Control
    requires Pending(d, target)
  {
    var channel := First(Changed(d, target));
    Writing(u, channel, target[channel])
  }

  /** apply_device_output after the transaction. */
  function AfterWrite(d: Device, acked: bool, readback: Option<Word32>): Device {
    if acked && readback.Some? then UpdateLink(d.(relays := Masked(readback.value, d.outputs), blocked := false), true)
    else UpdateLink(d.(blocked := true), false)
  }

  /** A poll of the output coils. */
  function AfterPoll(d: Device, reply: Option<Word32>): Device {
    if reply.Some? then UpdateLink(d.(relays := Masked(reply.value, d.outputs), blocked := false), true)
    else UpdateLink(d.(blocked := true), false)
  }

  function AfterInputs(w: Worker, reply: Option<Word32>): Worker {
    if reply.Some? then w.(inputState := Masked(reply.value, w.inputs), inputOk := true) else w.(inputOk := false)
  }

  function Next(p: Phase): Phase {
    match p
    case PollWaveshare => PollM31
    case PollM31 => PollInputs
    case _ => PollComplete
  }

  predicate Skipped(w: Worker, p: Phase) {
    match p
    case PollWaveshare => w.waveshare.outputs == 0
    case PollM31 => w.m31.outputs == 0
    case PollInputs => w.inputs == 0 || !w.m31.online
    case PollComplete => false
  }

  /** The skips of poll_worker; passing over the input phase clears the input validity. */
  function SkipTo(w: Worker, p: Phase): (Worker, Phase)
    decreases match p case PollWaveshare => 3 case PollM31 => 2 case PollInputs => 1 case PollComplete => 0
  {
    if !Skipped(w, p) then (w, p)
    else SkipTo(if p == PollInputs then w.(inputOk := false) else w, Next(p))
  }

  function Targets(s: Sys): (Word32, Word32)
  {
    var w := s.worker;
    var target := Target(s.shared, w.waveshare.outputs + w.m31.outputs);
    (DeviceTarget(target, 0, w.waveshare.outputs), DeviceTarget(target, w.waveshare.outputs, w.m31.outputs))
  }

  /** One pass of the task loop up to its bus transaction: a pending write, else the next
      poll, else the poll timer. */
  function AtSnapshot(s: Sys, pollDue: bool): Sys
  {
    var w := s.worker;
    var (t1, t2) := Targets(s);
    if Pending(w.waveshare, t1) then s.(at := WriteFor(Waveshare, w.waveshare, t1))
    else if Pending(w.m31, t2) then s.(at := WriteFor(M31, w.m31, t2))
    else if s.phase != PollComplete then
      var (w1, p) := SkipTo(w, s.phase);
      if p == PollComplete then s.(worker := w1, phase := p) else s.(worker := w1, phase := p, at := Polling(p))
    else if pollDue then s.(phase := PollWaveshare)
    else s
  }

  function AtWrote(s: Sys, acked: bool, readback: Option<Word32>): Sys
    requires s.at.Writing?
  {
    var w := s.worker;
    var w1 := match s.at.u
      case Waveshare => w.(waveshare := AfterWrite(w.waveshare, acked, readback))
      case M31 => w.(m31 := AfterWrite(w.m31, acked, readback));
    s.(worker := w1, at := Publishing)
  }

  function AtPolled(s: Sys, reply: Option<Word32>): Sys
    requires s.at.Polling?
  {
    var w := s.worker;
    var w1 := match s.at.p
      case PollWaveshare => w.(waveshare := AfterPoll(w.waveshare, reply))
      case PollM31 => w.(m31 := AfterPoll(w.m31, reply))
      case _ => AfterInputs(w, reply);
    s.(worker := w1, phase := Next(s.at.p), at := Publishing)
  }

  function Step(s: Sys, e: Event): Sys
  {
    match e
    case SetEnabled(enabled) => s.(shared := Enable(s.shared, enabled))
    case SetOutputs(mask, values) => s.(shared := SetIntent(s.shared, mask, values))
    case Snapshot(due) => if s.at == Top then AtSnapshot(s, due) else s
    case Wrote(acked, readback) => if s.at.Writing? then AtWrote(s, acked, readback) else s
    case Polled(reply) => if s.at.Polling? then AtPolled(s, reply) else s
    case Published => if s.at == Publishing then s.(shared := Publish(s.shared, Image(s.worker)), at := Top) else s
  }

  function Fresh(outputs: Width): Device {
    Device(outputs, Zero(32), false, 0, false)
  }

  /** After discovery; without any output the task stops at once. */
  function Boot(waveshare: Width, m31: Width, inputs: Width): Sys {
    var worker := Worker(Fresh(waveshare), Fresh(m31), inputs, Zero(32), false);
    Sys(OFF, worker, PollWaveshare,
        if waveshare + m31 == 0 then Stopped else Top)
  }

  // ---- what every step keeps -----------------------------------------------------------------------

  predicate Clean(w: Word32, count: nat) {
    forall i :: count <= i < 32 ==> !w[i]
  }

  predicate DeviceOk(d: Device) {
    && d.failures <= LINK_FAILURES
    && (d.online ==> d.failures < LINK_FAILURES)
    && Clean(d.relays, d.outputs)
  }

  function Dev(w: Worker, u: Unit): Device {
    match u case Waveshare => w.waveshare case M31 => w.m31
  }

  /** Widths and link counters stay in range; a write is only issued to a module that is
      online, whose last transaction read its coils, and only to a coil that differs; and
      whenever the worker is not about to publish, the comm task sees exactly its view. */
  predicate Inv(s: Sys) {
    && DeviceOk(s.worker.waveshare) && DeviceOk(s.worker.m31)
    && (s.at.Writing? ==>
          var d := Dev(s.worker, s.at.u);
          Available(d) && s.at.channel < d.outputs && d.relays[s.at.channel] != s.at.on)
    && (s.at.Polling? ==> s.at.p == s.phase && !Skipped(s.worker, s.phase) && s.phase != PollComplete)
    && (s.at != Publishing ==> s.shared.state == Image(s.worker))
  }

  function Run(s: Sys, es: seq<Event>): Sys
    decreases es
  {
    if es == [] then s else Run(Step(s, es[0]), es[1..])
  }
}
