/** The relay controller over modules that answer every transaction, with the coils as they really
    are: from any state, boot included, writes and polls bring every module online, and the coils
    and the published bitmap to the target, in a bounded number of passes; unless a coil is stuck. */
module Rs485Liveness {
  import opened Words
  import opened Options
  import opened Rtu
  import opened Rs485
  import opened Rs485Safety
  import opened Rs485Convergence
  import opened Rs485Stuck
  import opened Iteration

  /** What the modules really hold. */
  datatype Coils = Coils(waveshare: Word32, m31: Word32, inputs: Word32) {
    function Of(u: Unit): Word32 {
      match u case Waveshare => waveshare case M31 => m31
    }

    function With(u: Unit, coils: Word32): Coils {
      match u case Waveshare => this.(waveshare := coils) case M31 => this.(m31 := coils)
    }
  }

  datatype System = System(s: Between, c: Coils)

  /** No module has a coil beyond its width set. */
  predicate Sane(p: System) {
    Clean(p.c.waveshare, p.s.worker.waveshare.outputs) && Clean(p.c.m31, p.s.worker.m31.outputs)
  }

  type Plant = p: System | Sane(p) witness System(Fed(), Coils(Zero(32), Zero(32), Zero(32)))

  // ---- one pass ----------------------------------------------------------------------------------

  /** The events of one pass when every transaction is answered. */
  function Answered(p: Plant, k: Stuck): seq<Event> {
    SnapshotKeepsInv(p.s, true);
    match AtSnapshot(p.s, true).at
    case Writing(u, channel, on) =>
      [Snapshot(true), Wrote(true, Some(Answer(p.c.Of(u), k.Of(u), channel, on))), Published]
    case Polling(PollWaveshare) => [Snapshot(true), Polled(Some(p.c.waveshare)), Published]
    case Polling(PollM31) => [Snapshot(true), Polled(Some(p.c.m31)), Published]
    case Polling(_) => [Snapshot(true), Polled(Some(p.c.inputs)), Published]
    case _ => [Snapshot(true)]
  }

  /** The coils after it. */
  function Moved(p: Plant, k: Stuck): Coils {
    SnapshotKeepsInv(p.s, true);
    match AtSnapshot(p.s, true).at
    case Writing(u, channel, on) => p.c.With(u, Answer(p.c.Of(u), k.Of(u), channel, on))
    case _ => p.c
  }

  function Pass(p: Plant, k: Stuck): Plant {
    PassStays(p, k);
    System(Run(p.s, Answered(p, k)), Moved(p, k))
  }

  function Passes(p: Plant, k: Stuck, n: nat): Plant {
    Iterate((x: Plant) => Pass(x, k), p, n)
  }

  /** What a pass does, by what the worker finds to do. */
  predicate Effect(p: Plant, k: Stuck, s': Sys) {
    var w, w', (t1, t2) := p.s.worker, s'.worker, Targets(p.s);
    && Targets(s') == (t1, t2) && s'.at == Top && Inv(s')
    && if Pending(w.waveshare, t1) || Pending(w.m31, t2) then
         var u := if Pending(w.waveshare, t1) then Waveshare else M31;
         var channel := First(Changed(Dev(w, u), TargetOf(p.s, u)));
         && s'.phase == p.s.phase
         && Pending(Dev(w, u), TargetOf(p.s, u))
         && Moved(p, k) == p.c.With(u, Answer(p.c.Of(u), k.Of(u), channel, TargetOf(p.s, u)[channel]))
         && w' == WithDev(w, u, AfterWrite(Dev(w, u), true, Some(Moved(p, k).Of(u))))
       else
         var q := SkipTo(w, p.s.phase).1;
         && Moved(p, k) == p.c
         && s'.phase == (if p.s.phase == PollComplete then PollWaveshare else if q == PollComplete then q else Next(q))
         && w'.waveshare == (if q == PollWaveshare then AfterPoll(w.waveshare, Some(p.c.waveshare)) else w.waveshare)
         && w'.m31 == (if q == PollM31 then AfterPoll(w.m31, Some(p.c.m31)) else w.m31)
  }

  lemma WritePass(p: Plant, k: Stuck)
    requires AtSnapshot(p.s, true).at.Writing?
    ensures Effect(p, k, Run(p.s, Answered(p, k)))
  {
    var at := AtSnapshot(p.s, true).at;
    SnapshotKeepsInv(p.s, true);
    var r := Answer(p.c.Of(at.u), k.Of(at.u), at.channel, at.on);
    ThreeSteps(p.s, Answered(p, k));
    RoundKeepsInv(p.s, true, r);
    RoundWrites(p.s, true, r);
  }

  /** A publish after an answered poll cannot lower the link, so it keeps the intent. */
  lemma PollPublishes(s: Sys, reply: Word32)
    requires Inv(s) && s.at.Polling?
    ensures var s' := Step(Step(s, Polled(Some(reply))), Published);
            && Inv(s') && s'.at == Top && s'.phase == Next(s.at.p)
            && Targets(s') == Targets(s)
            && var w := s.worker;
               && s'.worker.waveshare
                  == (if s.at.p == PollWaveshare then AfterPoll(w.waveshare, Some(reply)) else w.waveshare)
               && s'.worker.m31 == (if s.at.p == PollM31 then AfterPoll(w.m31, Some(reply)) else w.m31)
  {
    StepKeepsInv(s, Polled(Some(reply)));
    StepKeepsInv(Step(s, Polled(Some(reply))), Published);
  }

  /** The poll chosen is the first one not skipped. */
  lemma PollChosen(s: Sys)
    requires AtSnapshot(s, true).at.Polling? && s.at == Top
    ensures var (s1, (w1, q), (t1, t2)) := (AtSnapshot(s, true), SkipTo(s.worker, s.phase), Targets(s));
            && s1 == s.(worker := w1, phase := q, at := Polling(q)) && q != PollComplete && s.phase != PollComplete
            && !Pending(s.worker.waveshare, t1) && !Pending(s.worker.m31, t2)
            && w1 == s.worker.(inputOk := w1.inputOk) && Targets(s1) == (t1, t2)
  {
    SkipKeepsView(s.worker, s.phase);
  }

  lemma PollPass(p: Plant, k: Stuck)
    requires AtSnapshot(p.s, true).at.Polling?
    ensures Effect(p, k, Run(p.s, Answered(p, k)))
  {
    var s1 := AtSnapshot(p.s, true);
    SnapshotKeepsInv(p.s, true);
    PollChosen(p.s);
    var es := Answered(p, k);
    ThreeSteps(p.s, es);
    PollPublishes(s1, es[1].reply.value);
  }

  lemma IdlePass(p: Plant, k: Stuck)
    requires !AtSnapshot(p.s, true).at.Polling? && !AtSnapshot(p.s, true).at.Writing?
    ensures Effect(p, k, Run(p.s, Answered(p, k)))
  {
    SnapshotKeepsInv(p.s, true);
    SkipKeepsView(p.s.worker, p.s.phase);
    var s1 := AtSnapshot(p.s, true);
    assert [Snapshot(true)][1..] == [];
    assert Run(s1, [Snapshot(true)][1..]) == s1;
  }

  lemma PassEffect(p: Plant, k: Stuck)
    ensures Effect(p, k, Run(p.s, Answered(p, k)))
  {
    if AtSnapshot(p.s, true).at.Writing? {
      WritePass(p, k);
    } else if AtSnapshot(p.s, true).at.Polling? {
      PollPass(p, k);
    } else {
      IdlePass(p, k);
    }
  }

  lemma PassStays(p: Plant, k: Stuck)
    ensures var s' := Run(p.s, Answered(p, k));
            Inv(s') && s'.at == Top
            && Clean(Moved(p, k).waveshare, s'.worker.waveshare.outputs)
            && Clean(Moved(p, k).m31, s'.worker.m31.outputs)
  {
    PassEffect(p, k);
    SnapshotKeepsInv(p.s, true);
  }

  // ---- the measure --------------------------------------------------------------------------------

  /** The worker may write the module and sees its coils as they are. */
  predicate Known(d: Device, coils: Word32) {
    Available(d) && d.relays == coils
  }

  /** How many coils are not as wanted. */
  function Off(d: Device, coils: Word32, target: Word32): nat {
    Count(Changed(d.(relays := coils), target))
  }

  /** Wrong coils, and passes until the module is polled if the worker does not know it. */
  function Need(d: Device, coils: Word32, target: Word32, polls: nat): nat {
    Off(d, coils, target) + if d.outputs == 0 || Known(d, coils) then 0 else polls
  }

  function PollsTo(p: Phase, u: Unit): nat {
    match u
    case Waveshare => (match p case PollWaveshare => 1 case PollComplete => 2 case PollInputs => 3 case PollM31 => 4)
    case M31 => (match p case PollM31 => 1 case PollWaveshare => 2 case PollComplete => 3 case PollInputs => 4)
  }

  function ToDo(p: Plant): nat {
    Need(p.s.worker.waveshare, p.c.waveshare, Targets(p.s).0, PollsTo(p.s.phase, Waveshare))
    + Need(p.s.worker.m31, p.c.m31, Targets(p.s).1, PollsTo(p.s.phase, M31))
  }

  /** A stuck coil is not as wanted. */
  predicate BadCoil(outputs: Width, coils: Word32, target: Word32, stuck: set<nat>) {
    exists i: nat {:trigger i in stuck} :: i in stuck && i < outputs && coils[i] != target[i]
  }

  predicate Bad(p: Plant, k: Stuck) {
    || BadCoil(p.s.worker.waveshare.outputs, p.c.waveshare, Targets(p.s).0, k.waveshare)
    || BadCoil(p.s.worker.m31.outputs, p.c.m31, Targets(p.s).1, k.m31)
  }

  /** A write of a module lowers what it needs, whether or not the worker had its coils right. */
  lemma WriteLowers(d: Device, coils: Word32, target: Word32, stuck: set<nat>, polls: nat)
    requires DeviceOk(d) && Pending(d, target) && Clean(coils, d.outputs) && polls > 0
    ensures var ch := First(Changed(d, target));
            var coils' := Answer(coils, stuck, ch, target[ch]);
            var d' := AfterWrite(d, true, Some(coils'));
            && Clean(coils', d.outputs) && d'.outputs == d.outputs
            && (BadCoil(d.outputs, coils', target, stuck) <==> BadCoil(d.outputs, coils, target, stuck))
            && (!BadCoil(d.outputs, coils, target, stuck) ==>
                  Need(d', coils', target, polls) < Need(d, coils, target, polls))
  {
    var ch := First(Changed(d, target));
    WriteIsNeeded(Waveshare, d, target);
    var coils' := Answer(coils, stuck, ch, target[ch]);
    var d' := AfterWrite(d, true, Some(coils'));
    assert d'.relays == coils';
    if ch !in stuck {
      if coils[ch] == target[ch] {
        assert coils' == coils;
      } else {
        var changed := Changed(d.(relays := coils), target);
        assert Changed(d'.(relays := coils'), target) == changed[ch := false];
        CountCleared(changed, ch);
      }
    }
  }

  /** A poll of a module makes it known. */
  lemma PollMakesKnown(d: Device, coils: Word32)
    requires DeviceOk(d) && Clean(coils, d.outputs) && d.outputs > 0
    ensures var d' := AfterPoll(d, Some(coils)); Known(d', coils) && d'.outputs == d.outputs
  {
    assert AfterPoll(d, Some(coils)).relays == coils;
  }

  /** A known module that differs is due for a write. */
  lemma KnownAndQuiet(d: Device, coils: Word32, target: Word32)
    requires Known(d, coils) && !Pending(d, target)
    ensures Off(d, coils, target) == 0
  {
    CountZero(Changed(d, target));
  }

  lemma AbsentNeedsNothing(d: Device, coils: Word32, target: Word32)
    requires d.outputs == 0
    ensures Off(d, coils, target) == 0
  {
    CountZero(Changed(d.(relays := coils), target));
  }

  /** The passes a module still waits for its poll. */
  lemma PollsGetNearer(w: Worker, p: Phase)
    ensures var q := SkipTo(w, p).1;
            var p' := if p == PollComplete then PollWaveshare else if q == PollComplete then q else Next(q);
            && (w.waveshare.outputs > 0 && q != PollWaveshare ==> PollsTo(p', Waveshare) < PollsTo(p, Waveshare))
            && (w.m31.outputs > 0 && q != PollM31 ==> PollsTo(p', M31) < PollsTo(p, M31))
            && (q == PollWaveshare ==> w.waveshare.outputs > 0) && (q == PollM31 ==> w.m31.outputs > 0)
  {
    SkipKeepsView(w, p);
  }

  /** A module with nothing due for a write: a pass that polls it, or lets its poll come nearer. */
  lemma QuietNeed(d: Device, d': Device, coils: Word32, target: Word32, polls: nat, polls': nat)
    requires DeviceOk(d) && Clean(coils, d.outputs) && !Pending(d, target) && polls > 0
    requires (d.outputs > 0 && d' == AfterPoll(d, Some(coils))) || (d' == d && (d.outputs > 0 ==> polls' < polls))
    ensures Need(d', coils, target, polls') < Need(d, coils, target, polls)
            || Need(d', coils, target, polls') == Need(d, coils, target, polls) == 0
  {
    if d.outputs == 0 {
      AbsentNeedsNothing(d, coils, target);
    } else if Known(d, coils) {
      KnownAndQuiet(d, coils, target);
      assert AfterPoll(d, Some(coils)).relays == coils;
      PollMakesKnown(d, coils);
    } else {
      PollMakesKnown(d, coils);
    }
  }

  predicate Due(p: Plant) {
    Pending(p.s.worker.waveshare, Targets(p.s).0) || Pending(p.s.worker.m31, Targets(p.s).1)
  }

  lemma QuietLowers(p: Plant, k: Stuck)
    requires !Due(p)
    ensures Bad(Pass(p, k), k) <==> Bad(p, k)
    ensures ToDo(Pass(p, k)) < ToDo(p) || ToDo(Pass(p, k)) == ToDo(p) == 0
  {
    PassEffect(p, k);
    PollsGetNearer(p.s.worker, p.s.phase);
    var w, w', t1, t2 := p.s.worker, Pass(p, k).s.worker, Targets(p.s).0, Targets(p.s).1;
    var q, q' := p.s.phase, Pass(p, k).s.phase;
    QuietNeed(w.waveshare, w'.waveshare, p.c.waveshare, t1, PollsTo(q, Waveshare), PollsTo(q', Waveshare));
    QuietNeed(w.m31, w'.m31, p.c.m31, t2, PollsTo(q, M31), PollsTo(q', M31));
  }

  lemma DueLowers(p: Plant, k: Stuck)
    requires Due(p)
    ensures Bad(Pass(p, k), k) <==> Bad(p, k)
    ensures !Bad(p, k) ==> ToDo(Pass(p, k)) < ToDo(p)
  {
    PassEffect(p, k);
    var w, t1, t2, q := p.s.worker, Targets(p.s).0, Targets(p.s).1, p.s.phase;
    if Pending(w.waveshare, t1) {
      WriteLowers(w.waveshare, p.c.waveshare, t1, k.waveshare, PollsTo(q, Waveshare));
    } else {
      WriteLowers(w.m31, p.c.m31, t2, k.m31, PollsTo(q, M31));
    }
  }

  lemma PassLowers(p: Plant, k: Stuck)
    ensures Bad(Pass(p, k), k) <==> Bad(p, k)
    ensures !Bad(p, k) ==> ToDo(Pass(p, k)) < ToDo(p) || ToDo(Pass(p, k)) == ToDo(p) == 0
  {
    if Due(p) {
      DueLowers(p, k);
    } else {
      QuietLowers(p, k);
    }
  }

  // ---- liveness -------------------------------------------------------------------------------------

  /** Every module is online, unblocked and known, and every coil is as wanted. */
  predicate Reached(p: Plant) {
    var w, t1, t2 := p.s.worker, Targets(p.s).0, Targets(p.s).1;
    && (w.waveshare.outputs > 0 ==> Known(w.waveshare, p.c.waveshare))
    && (w.m31.outputs > 0 ==> Known(w.m31, p.c.m31))
    && Off(w.waveshare, p.c.waveshare, t1) == 0 && Off(w.m31, p.c.m31, t2) == 0
  }

  lemma ReachedIff(p: Plant)
    ensures Reached(p) <==> ToDo(p) == 0
  {
  }

  lemma BadIsNotReached(p: Plant, k: Stuck)
    requires Bad(p, k)
    ensures !Reached(p)
  {
    var w, t1, t2 := p.s.worker, Targets(p.s).0, Targets(p.s).1;
    if BadCoil(w.waveshare.outputs, p.c.waveshare, t1, k.waveshare) {
      WrongCoilCounts(w.waveshare, p.c.waveshare, t1, k.waveshare);
    } else {
      WrongCoilCounts(w.m31, p.c.m31, t2, k.m31);
    }
  }

  lemma WrongCoilCounts(d: Device, coils: Word32, target: Word32, stuck: set<nat>)
    requires BadCoil(d.outputs, coils, target, stuck)
    ensures Off(d, coils, target) > 0
  {
    var i: nat :| i in stuck && i < d.outputs && coils[i] != target[i];
    var changed := Changed(d.(relays := coils), target);
    assert changed[i];
    CountZero(changed);
  }

  /** Liveness, from every state between passes, with any view the worker may have: after enough
      passes everything is as wanted if and only if no stuck coil is otherwise. */
  lemma ReachedIffNoStuckCoil(p: Plant, k: Stuck, n: nat)
    requires n >= ToDo(p)
    ensures Reached(Passes(p, k, n)) <==> !Bad(p, k)
  {
    var f := (x: Plant) => Pass(x, k);
    if Bad(p, k) {
      var keep := (x: Plant) => Bad(x, k);
      forall x: Plant | keep(x) ensures keep(f(x)) {
        PassLowers(x, k);
      }
      Kept(f, keep, p, n);
      BadIsNotReached(Passes(p, k, n), k);
    } else {
      var keep, measure := (x: Plant) => !Bad(x, k), (x: Plant) => ToDo(x);
      forall x: Plant | keep(x)
        ensures keep(f(x)) && (measure(x) > 0 ==> measure(f(x)) < measure(x))
        ensures measure(x) == 0 ==> measure(f(x)) == 0
      {
        PassLowers(x, k);
      }
      UsedUp(f, keep, measure, p, n);
      ReachedIff(Passes(p, k, n));
    }
  }

  lemma {:induction false} CountBound(w: Word, n: nat)
    requires forall i :: n <= i < |w| ==> !w[i]
    ensures Count(w) <= n
  {
    if w != [] {
      CountBound(w[..|w| - 1], if n < |w| then n else |w| - 1);
    }
  }

  /** Enough is the number of output channels and eight: at most 72. */
  lemma EnoughPasses(p: Plant)
    ensures ToDo(p) <= p.s.worker.waveshare.outputs + p.s.worker.m31.outputs + 8
  {
    var w, t1, t2 := p.s.worker, Targets(p.s).0, Targets(p.s).1;
    CountBound(Changed(w.waveshare.(relays := p.c.waveshare), t1), w.waveshare.outputs);
    CountBound(Changed(w.m31.(relays := p.c.m31), t2), w.m31.outputs);
  }

  /** A reached target is published. */
  lemma ReachedIsPublished(p: Plant)
    requires Reached(p)
    ensures var s := p.s; var w := s.worker;
            && AllAvailable(w)
            && s.shared.state.relays == Target(s.shared, w.waveshare.outputs + w.m31.outputs)
  {
    var w, t1, t2 := p.s.worker, Targets(p.s).0, Targets(p.s).1;
    KnownMatches(w.waveshare, p.c.waveshare, t1);
    KnownMatches(w.m31, p.c.m31, t2);
    SettledIffPublished(p.s);
  }

  lemma KnownMatches(d: Device, coils: Word32, target: Word32)
    requires d.outputs > 0 ==> Known(d, coils)
    requires Off(d, coils, target) == 0
    ensures Wrong(d, target) == 0
  {
  }

  /** With modules that answer and obey, from any state, boot included, 72 passes bring every module
      online and unblocked, and the published bitmap to the target; and so it stays. */
  lemma ObedientModulesReachTarget(p: Plant, n: nat)
    requires n >= 72
    ensures var s := Passes(p, Stuck({}, {}), n).s; var w := s.worker;
            && AllAvailable(w)
            && s.shared.state.relays == Target(s.shared, w.waveshare.outputs + w.m31.outputs)
  {
    EnoughPasses(p);
    ReachedIffNoStuckCoil(p, Stuck({}, {}), n);
    ReachedIsPublished(Passes(p, Stuck({}, {}), n));
  }
}
