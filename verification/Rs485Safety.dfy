/** Safety of the relay controller over every run: arbitrary comm-task calls between the
    worker's steps, arbitrary slave replies. */
module Rs485Safety {
  import opened Words
  import opened Options
  import opened Rtu
  import opened Rs485

  // ---- the invariant -----------------------------------------------------------------------

  lemma AfterWriteOk(d: Device, acked: bool, readback: Option<Word32>)
    requires DeviceOk(d)
    ensures DeviceOk(AfterWrite(d, acked, readback)) && DeviceOk(AfterPoll(d, readback))
  {
  }

  lemma WriteIsNeeded(u: Unit, d: Device, target: Word32)
    requires DeviceOk(d) && Pending(d, target)
    ensures var w := WriteFor(u, d, target);
            w.channel < d.outputs && d.relays[w.channel] != w.on && w.on == target[w.channel]
  {
    assert Changed(d, target)[First(Changed(d, target))];
  }

  lemma {:induction false} SkipKeepsView(w: Worker, p: Phase)
    ensures var (w1, q) := SkipTo(w, p);
            && w1 == w.(inputOk := w1.inputOk) && Image(w1) == Image(w)
            && !Skipped(w1, q)
    decreases match p case PollWaveshare => 3 case PollM31 => 2 case PollInputs => 1 case PollComplete => 0
  {
    if Skipped(w, p) {
      SkipKeepsView(if p == PollInputs then w.(inputOk := false) else w, Next(p));
    }
  }

  lemma SnapshotKeepsInv(s: Sys, due: bool)
    requires Inv(s) && s.at == Top
    ensures Inv(AtSnapshot(s, due))
  {
    var w := s.worker;
    var (t1, t2) := Targets(s);
    if Pending(w.waveshare, t1) {
      WriteIsNeeded(Waveshare, w.waveshare, t1);
    } else if Pending(w.m31, t2) {
      WriteIsNeeded(M31, w.m31, t2);
    } else {
      SkipKeepsView(w, s.phase);
    }
  }

  lemma StepKeepsInv(s: Sys, e: Event)
    requires Inv(s)
    ensures Inv(Step(s, e))
  {
    match e
    case Snapshot(due) =>
      if s.at == Top {
        SnapshotKeepsInv(s, due);
      }
    case Wrote(acked, readback) =>
      AfterWriteOk(s.worker.waveshare, acked, readback);
      AfterWriteOk(s.worker.m31, acked, readback);
    case Polled(reply) =>
      AfterWriteOk(s.worker.waveshare, true, reply);
      AfterWriteOk(s.worker.m31, true, reply);
    case _ =>
  }

  lemma {:induction false} RunKeepsInv(s: Sys, es: seq<Event>)
    requires Inv(s)
    ensures Inv(Run(s, es))
    decreases es
  {
    if es != [] {
      StepKeepsInv(s, es[0]);
      RunKeepsInv(Step(s, es[0]), es[1..]);
    }
  }

  /** The controller starts in the invariant for every population the discovery can find:
      disabled, with nothing wanted, no module known, and ready to poll unless there is no
      output at all. */
  lemma BootOk(waveshare: Width, m31: Width, inputs: Width)
    ensures Inv(Boot(waveshare, m31, inputs))
    ensures var s := Boot(waveshare, m31, inputs);
            && !s.shared.enabled && (forall c :: 0 <= c < 64 ==> !s.shared.desired[c] && !s.shared.state.relays[c])
            && !s.shared.state.link && !s.shared.state.inputValid && !s.worker.waveshare.online && !s.worker.m31.online
            && s.worker.waveshare.outputs == waveshare && s.worker.m31.outputs == m31 && s.worker.inputs == inputs
            && s.phase == PollWaveshare && (s.at == Top <==> waveshare + m31 > 0)
  {
    var s := Boot(waveshare, m31, inputs);
    assert Image(s.worker).relays == Zero(64);
    assert Image(s.worker).inputs == Zero(64);
  }

  /** What a pass does when nothing is to be written: the next poll of the round in the order
      Waveshare, M31, M31 inputs, each only if there is something to poll; then nothing until
      the poll timer starts the next round. */
  lemma NextPoll(s: Sys, due: bool)
    requires s.at == Top && !Pending(s.worker.waveshare, Targets(s).0) && !Pending(s.worker.m31, Targets(s).1)
    ensures var s', w := AtSnapshot(s, due), s.worker;
            if s.phase == PollComplete then s' == s.(phase := if due then PollWaveshare else PollComplete)
            else if s.phase == PollWaveshare && w.waveshare.outputs > 0 then
              s' == s.(at := Polling(PollWaveshare))
            else if s.phase != PollInputs && w.m31.outputs > 0 then s' == s.(phase := PollM31, at := Polling(PollM31))
            else if w.inputs > 0 && w.m31.online then s' == s.(phase := PollInputs, at := Polling(PollInputs))
            else s' == s.(phase := PollComplete, worker := w.(inputOk := false))
  {
    var w := s.worker;
    if s.phase == PollWaveshare && Skipped(w, PollWaveshare) {
      assert SkipTo(w, PollWaveshare) == SkipTo(w, PollM31);
    }
    if Skipped(w, PollM31) {
      assert SkipTo(w, PollM31) == SkipTo(w, PollInputs);
    }
    if Skipped(w, PollInputs) {
      assert SkipTo(w, PollInputs) == (w.(inputOk := false), PollComplete);
    }
  }

  /** A pending write goes before any poll, and the Waveshare module's before the M31's; it is
      of the lowest coil that differs. */
  lemma NextWrite(s: Sys, due: bool)
    requires s.at == Top && (Pending(s.worker.waveshare, Targets(s).0) || Pending(s.worker.m31, Targets(s).1))
    ensures var at := AtSnapshot(s, due).at;
            && at.Writing? && AtSnapshot(s, due) == s.(at := at)
            && at.u == (if Pending(s.worker.waveshare, Targets(s).0) then Waveshare else M31)
            && var d, target := Dev(s.worker, at.u), if at.u == Waveshare then Targets(s).0 else Targets(s).1;
               && at.channel < d.outputs && d.relays[at.channel] != target[at.channel] == at.on
               && forall i :: 0 <= i < at.channel ==> d.relays[i] == target[i]
  {
    var at := AtSnapshot(s, due).at;
    var d, target := Dev(s.worker, at.u), if at.u == Waveshare then Targets(s).0 else Targets(s).1;
    assert Changed(d, target)[First(Changed(d, target))];
    forall i | 0 <= i < at.channel ensures d.relays[i] == target[i] {
      assert !Changed(d, target)[i];
    }
  }

  // ---- fail-safe ----------------------------------------------------------------------------------

  /** The FC05 requests put on the bus during a run, in order. */
  function CoilWrites(s: Sys, es: seq<Event>): seq<Control>
    decreases es
  {
    if es == [] then []
    else (if es[0].Wrote? && s.at.Writing? then [s.at] else []) + CoilWrites(Step(s, es[0]), es[1..])
  }

  lemma RunOne(s: Sys, e: Event)
    ensures Run(s, [e]) == Step(s, e)
  {
    assert Run(Step(s, e), [e][1..]) == Step(s, e);
  }

  lemma {:induction false} RunConcat(s: Sys, a: seq<Event>, b: seq<Event>)
    ensures Run(s, a + b) == Run(Run(s, a), b)
    decreases a
  {
    if a == [] {
      assert a + b == b;
    } else {
      assert (a + b)[1..] == a[1..] + b;
      RunConcat(Step(s, a[0]), a[1..], b);
    }
  }

  lemma {:induction false} CoilWritesConcat(s: Sys, a: seq<Event>, b: seq<Event>)
    ensures CoilWrites(s, a + b) == CoilWrites(s, a) + CoilWrites(Run(s, a), b)
    decreases a
  {
    if a == [] {
      assert a + b == b;
    } else {
      assert (a + b)[1..] == a[1..] + b;
      CoilWritesConcat(Step(s, a[0]), a[1..], b);
    }
  }

  lemma OneWriteAt(s: Sys, e: Event)
    ensures CoilWrites(s, [e]) == if e.Wrote? && s.at.Writing? then [s.at] else []
  {
    assert [e][1..] == [];
  }

  predicate NeverEnabled(es: seq<Event>) {
    forall i :: 0 <= i < |es| ==> !(es[i].SetEnabled? && es[i].enabled)
  }

  predicate AllOff(ws: seq<Control>) {
    forall i :: 0 <= i < |ws| ==> ws[i].Writing? && !ws[i].on
  }

  lemma DisabledTargetsOff(s: Sys)
    requires Inv(s) && !s.shared.enabled
    ensures forall i :: 0 <= i < 32 ==> !Targets(s).0[i] && !Targets(s).1[i]
  {
  }

  /** While disabled, no write whose target snapshot is taken now can be an ON. */
  lemma DisabledSnapshotIsOff(s: Sys, due: bool)
    requires Inv(s) && !s.shared.enabled && s.at == Top
    ensures AtSnapshot(s, due).at.Writing? ==> !AtSnapshot(s, due).at.on
  {
    DisabledTargetsOff(s);
    var w := s.worker;
    var (t1, t2) := Targets(s);
    if Pending(w.waveshare, t1) {
      WriteIsNeeded(Waveshare, w.waveshare, t1);
    } else if Pending(w.m31, t2) {
      WriteIsNeeded(M31, w.m31, t2);
    }
  }

  lemma {:induction false} DisabledWritesOff(s: Sys, es: seq<Event>)
    requires Inv(s) && !s.shared.enabled && NeverEnabled(es)
    requires s.at.Writing? ==> !s.at.on
    ensures AllOff(CoilWrites(s, es))
    decreases es
  {
    if es != [] {
      StepKeepsInv(s, es[0]);
      if es[0].Snapshot? && s.at == Top {
        DisabledSnapshotIsOff(s, es[0].pollDue);
      }
      DisabledWritesOff(Step(s, es[0]), es[1..]);
    }
  }

  /** Fail-safe: from set_enabled(false) until the next set_enabled(true), in every
      interleaving and whatever the slaves answer, at most one coil-ON write goes out: the
      first one, and only if its target snapshot had already been taken. */
  lemma {:induction false} FailSafe(s: Sys, es: seq<Event>)
    requires Inv(s) && NeverEnabled(es)
    ensures var disabled := Step(s, SetEnabled(false));
            var ws := CoilWrites(disabled, es);
            AllOff(ws) || (s.at.Writing? && ws != [] && ws[0] == s.at && AllOff(ws[1..]))
  {
    StepKeepsInv(s, SetEnabled(false));
    FirstWriteThenOff(Step(s, SetEnabled(false)), es);
  }

  lemma {:induction false} FirstWriteThenOff(s: Sys, es: seq<Event>)
    requires Inv(s) && !s.shared.enabled && NeverEnabled(es)
    ensures var ws := CoilWrites(s, es);
            AllOff(ws) || (s.at.Writing? && ws != [] && ws[0] == s.at && AllOff(ws[1..]))
    decreases es
  {
    if !s.at.Writing? || !s.at.on {
      DisabledWritesOff(s, es);
    } else if es != [] {
      StepKeepsInv(s, es[0]);
      var s1 := Step(s, es[0]);
      if es[0].Wrote? {
        DisabledWritesOff(s1, es[1..]);
        assert CoilWrites(s, es) == [s.at] + CoilWrites(s1, es[1..]);
      } else {
        FirstWriteThenOff(s1, es[1..]);
        assert CoilWrites(s, es) == CoilWrites(s1, es[1..]);
      }
    }
  }

  // ---- no stale replay ---------------------------------------------------------------------------------

  predicate NoEnableCalls(es: seq<Event>) {
    forall i :: 0 <= i < |es| ==> !es[i].SetEnabled?
  }

  /** The published link is down now and after every event of the run. */
  predicate LinkDown(s: Sys, es: seq<Event>)
    decreases es
  {
    !s.shared.state.link && (es == [] || LinkDown(Step(s, es[0]), es[1..]))
  }

  lemma {:induction false} IntentFrozen(s: Sys, es: seq<Event>)
    requires NoEnableCalls(es) && LinkDown(s, es)
    ensures Run(s, es).shared.desired == s.shared.desired && Run(s, es).shared.enabled == s.shared.enabled
    decreases es
  {
    if es != [] {
      IntentFrozen(Step(s, es[0]), es[1..]);
    }
  }

  /** No stale replay: when the combined link falls while enabled, the intent becomes the
      readback published at that moment, whatever had been accepted before, and no call and
      no step changes it until the link rises or set_enabled is called. */
  lemma NoStaleReplay(s: Sys, es: seq<Event>)
    requires s.at == Publishing && s.shared.enabled
    requires s.shared.state.link && !Image(s.worker).link
    requires NoEnableCalls(es) && LinkDown(Step(s, Published), es)
    ensures Run(Step(s, Published), es).shared.desired == Image(s.worker).relays
    ensures Step(s, Published).shared.state.relays == Image(s.worker).relays
  {
    IntentFrozen(Step(s, Published), es);
  }

  // ---- blocked modules -----------------------------------------------------------------------------------

  function PhaseOf(u: Unit): Phase {
    match u case Waveshare => PollWaveshare case M31 => PollM31
  }

  /** The event is a successful poll of the module's coils. */
  predicate GoodPoll(s: Sys, e: Event, u: Unit) {
    e.Polled? && e.reply.Some? && s.at == Polling(PhaseOf(u))
  }

  predicate NoGoodPoll(s: Sys, es: seq<Event>, u: Unit)
    decreases es
  {
    es == [] || (!GoodPoll(s, es[0], u) && NoGoodPoll(Step(s, es[0]), es[1..], u))
  }

  predicate NotTo(ws: seq<Control>, u: Unit) {
    forall i :: 0 <= i < |ws| ==> ws[i].Writing? && ws[i].u != u
  }

  lemma BlockedStaysBlocked(s: Sys, e: Event, u: Unit)
    requires Inv(s) && Dev(s.worker, u).blocked && !GoodPoll(s, e, u)
    ensures Dev(Step(s, e).worker, u).blocked
    ensures s.at.Writing? ==> s.at.u != u
  {
    if e.Snapshot? && s.at == Top {
      SkipKeepsView(s.worker, s.phase);
    }
  }

  /** After a failed transaction a module gets no further FC05 until one of its polls
      succeeds. */
  lemma {:induction false} NoWriteWhileBlocked(s: Sys, es: seq<Event>, u: Unit)
    requires Inv(s) && Dev(s.worker, u).blocked && NoGoodPoll(s, es, u)
    ensures NotTo(CoilWrites(s, es), u)
    decreases es
  {
    if es != [] {
      StepKeepsInv(s, es[0]);
      BlockedStaysBlocked(s, es[0], u);
      NoWriteWhileBlocked(Step(s, es[0]), es[1..], u);
    }
  }

  // ---- link hysteresis -----------------------------------------------------------------------------------

  /** The outcome of the transaction with one module that an event completes, if any. */
  function Outcome(s: Sys, e: Event, u: Unit): seq<bool> {
    match e
    case Wrote(acked, readback) => if s.at.Writing? && s.at.u == u then [acked && readback.Some?] else []
    case Polled(reply) => if s.at == Polling(PhaseOf(u)) then [reply.Some?] else []
    case _ => []
  }

  function Outcomes(s: Sys, es: seq<Event>, u: Unit): seq<bool>
    decreases es
  {
    if es == [] then [] else Outcome(s, es[0], u) + Outcomes(Step(s, es[0]), es[1..], u)
  }

  /** The module's link after a list of transaction outcomes. */
  function LinkAfter(d: Device, outcomes: seq<bool>): Device
    decreases outcomes
  {
    if outcomes == [] then d else LinkAfter(UpdateLink(d, outcomes[0]), outcomes[1..])
  }

  predicate SameLink(d: Device, e: Device) {
    d.failures == e.failures && d.online == e.online
  }

  lemma {:induction false} LinkAfterSame(d: Device, e: Device, outcomes: seq<bool>)
    requires SameLink(d, e)
    ensures SameLink(LinkAfter(d, outcomes), LinkAfter(e, outcomes))
    decreases outcomes
  {
    if outcomes != [] {
      LinkAfterSame(UpdateLink(d, outcomes[0]), UpdateLink(e, outcomes[0]), outcomes[1..]);
    }
  }

  lemma StepLink(s: Sys, e: Event, u: Unit)
    ensures var d, d', o := Dev(s.worker, u), Dev(Step(s, e).worker, u), Outcome(s, e, u);
            SameLink(d', if o == [] then d else UpdateLink(d, o[0]))
  {
    if e.Snapshot? && s.at == Top {
      SkipKeepsView(s.worker, s.phase);
    }
  }

  /** During every run, a module's link state is what its own transaction outcomes make it. */
  lemma {:induction false} LinkFollowsOutcomes(s: Sys, es: seq<Event>, u: Unit)
    ensures SameLink(Dev(Run(s, es).worker, u), LinkAfter(Dev(s.worker, u), Outcomes(s, es, u)))
    decreases es
  {
    if es != [] {
      var s1, d, o := Step(s, es[0]), Dev(s.worker, u), Outcome(s, es[0], u);
      var rest := Outcomes(s1, es[1..], u);
      StepLink(s, es[0], u);
      LinkFollowsOutcomes(s1, es[1..], u);
      LinkAfterSame(Dev(s1.worker, u), if o == [] then d else UpdateLink(d, o[0]), rest);
      assert o == [] ==> o + rest == rest;
      assert o != [] ==> (o + rest)[1..] == rest;
    }
  }

  lemma StepBlock(s: Sys, e: Event, u: Unit)
    ensures var o := Outcome(s, e, u);
            Dev(Step(s, e).worker, u).blocked == if o == [] then Dev(s.worker, u).blocked else !o[0]
  {
    if e.Snapshot? && s.at == Top {
      SkipKeepsView(s.worker, s.phase);
    }
  }

  /** Over every run a module is blocked for writes exactly when the last transaction with it
      failed, be it a write or a poll of its outputs. */
  lemma {:induction false} BlockFollowsOutcomes(s: Sys, es: seq<Event>, u: Unit)
    ensures var os := Outcomes(s, es, u);
            Dev(Run(s, es).worker, u).blocked == if os == [] then Dev(s.worker, u).blocked else !os[|os| - 1]
    decreases es
  {
    if es != [] {
      StepBlock(s, es[0], u);
      BlockFollowsOutcomes(Step(s, es[0]), es[1..], u);
      var rest := Outcomes(Step(s, es[0]), es[1..], u);
      assert rest != [] ==> (Outcome(s, es[0], u) + rest)[|Outcome(s, es[0], u) + rest| - 1] == rest[|rest| - 1];
    }
  }

  lemma {:induction false} LinkAfterConcat(d: Device, a: seq<bool>, b: seq<bool>)
    ensures LinkAfter(d, a + b) == LinkAfter(LinkAfter(d, a), b)
    decreases a
  {
    if a == [] {
      assert a + b == b;
    } else {
      assert (a + b)[1..] == a[1..] + b;
      LinkAfterConcat(UpdateLink(d, a[0]), a[1..], b);
    }
  }

  /** How many failures there have been since the last success. */
  function Trailing(outcomes: seq<bool>): nat {
    if outcomes == [] || outcomes[|outcomes| - 1] then 0 else 1 + Trailing(outcomes[..|outcomes| - 1])
  }

  /** A module is online exactly when it has ever answered and fewer than three
      transactions in a row have failed since. */
  lemma {:induction false} LinkHysteresis(outputs: Width, outcomes: seq<bool>)
    ensures var d := LinkAfter(Fresh(outputs), outcomes);
            && (d.online <==> true in outcomes && Trailing(outcomes) < 3)
            && d.failures == (if Trailing(outcomes) < 3 then Trailing(outcomes) else 3)
  {
    if outcomes != [] {
      var n := |outcomes| - 1;
      var last := outcomes[n..];
      LinkHysteresis(outputs, outcomes[..n]);
      assert outcomes == outcomes[..n] + last;
      LinkAfterConcat(Fresh(outputs), outcomes[..n], last);
      assert last[1..] == [];
      var d := LinkAfter(Fresh(outputs), outcomes[..n]);
      assert LinkAfter(d, last) == UpdateLink(d, last[0]);
    }
  }

  /** A module that has never answered contributes zeros to the published bitmap. */
  lemma {:induction false} UnreadModuleShowsZero(s: Sys, es: seq<Event>, u: Unit)
    requires Dev(s.worker, u).relays == Zero(32) && true !in Outcomes(s, es, u)
    ensures Dev(Run(s, es).worker, u).relays == Zero(32)
    decreases es
  {
    if es != [] {
      var o := Outcome(s, es[0], u);
      assert forall b :: b in o ==> b in Outcomes(s, es, u);
      if es[0].Snapshot? && s.at == Top {
        SkipKeepsView(s.worker, s.phase);
      }
      assert o != [] ==> !o[0];
      UnreadModuleShowsZero(Step(s, es[0]), es[1..], u);
    }
  }
}
