/** Relay modules with coils that acknowledge every write and never move: exactly when repeated
    passes still reach the target, and what happens to polling when they do not. */
module Rs485Stuck {
  import opened Words
  import opened Options
  import opened Rtu
  import opened Rs485
  import opened Rs485Safety
  import opened Rs485Convergence
  import opened Iteration

  /** The stuck coils of the two modules; all others obey. */
  datatype Stuck = Stuck(waveshare: set<nat>, m31: set<nat>) {
    function Of(u: Unit): set<nat> {
      match u case Waveshare => waveshare case M31 => m31
    }
  }

  /** A reachable state between two passes. */
  type Between = s: Sys | Inv(s) && s.at == Top witness Fed()

  function Fed(): (s: Sys)
    ensures Inv(s) && s.at == Top
  {
    BootOk(1, 0, 0);
    Boot(1, 0, 0)
  }

  /** A module's relays after a write it acknowledges. */
  function Answer(relays: Word32, stuck: set<nat>, channel: nat, on: bool): Word32
    requires channel < 32
  {
    if channel in stuck then relays else relays[channel := on]
  }

  /** The events of one pass over such modules that writes. */
  function Writing(s: Between, due: bool, k: Stuck): seq<Event>
    requires Mismatch(s) > 0
  {
    SnapshotWritesIffMismatch(s, due);
    SnapshotKeepsInv(s, due);
    var at := AtSnapshot(s, due).at;
    [Snapshot(due), Wrote(true, Some(Answer(Dev(s.worker, at.u).relays, k.Of(at.u), at.channel, at.on))), Published]
  }

  /** One pass while something is left to write; nothing happens otherwise. */
  function Attempt(s: Between, due: bool, k: Stuck): Between
  {
    if Mismatch(s) == 0 then s
    else
      AttemptIsRound(s, due, k);
      Run(s, Writing(s, due, k))
  }

  lemma AttemptIsRound(s: Between, due: bool, k: Stuck)
    requires Mismatch(s) > 0
    ensures AtSnapshot(s, due).at.Writing? && AtSnapshot(s, due).at.channel < 32
    ensures var at := AtSnapshot(s, due).at;
            var r := Answer(Dev(s.worker, at.u).relays, k.Of(at.u), at.channel, at.on);
            Run(s, Writing(s, due, k)) == Round(s, due, r) && Inv(Round(s, due, r)) && Round(s, due, r).at == Top
  {
    SnapshotWritesIffMismatch(s, due);
    SnapshotKeepsInv(s, due);
    var at := AtSnapshot(s, due).at;
    var r := Answer(Dev(s.worker, at.u).relays, k.Of(at.u), at.channel, at.on);
    var es := Writing(s, due, k);
    ThreeSteps(s, es);
    RoundKeepsInv(s, due, r);
    RoundWrites(s, due, r);
  }

  lemma ThreeSteps(s: Sys, es: seq<Event>)
    requires |es| == 3
    ensures Run(s, es) == Step(Step(Step(s, es[0]), es[1]), es[2])
  {
    var s1, rest := Step(s, es[0]), es[1..];
    var s2, last := Step(s1, rest[0]), rest[1..];
    assert rest[0] == es[1] && last[0] == es[2] && last[1..] == [];
    assert Run(s2, last) == Run(Step(s2, last[0]), last[1..]);
    assert Run(s1, rest) == Run(s2, last);
  }

  function Attempts(s: Between, due: bool, k: Stuck, n: nat): Between {
    Iterate((x: Between) => Attempt(x, due, k), s, n)
  }

  /** A stuck coil of an available module differs from its target. */
  predicate StuckWrong(d: Device, target: Word32, stuck: set<nat>) {
    Available(d) && exists i: nat {:trigger i in stuck} :: i in stuck && i < d.outputs && d.relays[i] != target[i]
  }

  predicate Hopeless(s: Sys, k: Stuck) {
    || StuckWrong(s.worker.waveshare, Targets(s).0, k.waveshare)
    || StuckWrong(s.worker.m31, Targets(s).1, k.m31)
  }

  /** One acknowledged write: it makes progress unless the coil is stuck, and changes no stuck coil. */
  lemma OneWrite(d: Device, target: Word32, stuck: set<nat>)
    requires DeviceOk(d) && Pending(d, target)
    ensures var ch, d' := First(Changed(d, target)), Written(d, target, stuck);
            && Available(d') && d'.outputs == d.outputs
            && (StuckWrong(d', target, stuck) <==> StuckWrong(d, target, stuck))
            && Wrong(d', target) == (if ch in stuck then Wrong(d, target) else Wrong(d, target) - 1)
            && (ch in stuck ==> StuckWrong(d, target, stuck))
  {
    var ch := First(Changed(d, target));
    WriteIsNeeded(Waveshare, d, target);
    if ch in stuck {
      assert AfterWrite(d, true, Some(d.relays)).relays == d.relays;
    } else {
      ObeyedDevice(d, target);
      assert AfterWrite(d, true, Some(d.relays[ch := target[ch]])).relays == d.relays[ch := target[ch]];
    }
  }

  /** A stuck coil that differs keeps its module in need of a write. */
  lemma HopelessIsMismatch(s: Sys, k: Stuck)
    requires Hopeless(s, k)
    ensures Mismatch(s) > 0
  {
    if StuckWrong(s.worker.waveshare, Targets(s).0, k.waveshare) {
      StuckIsPending(s.worker.waveshare, Targets(s).0, k.waveshare);
      WrongIffPending(s.worker.waveshare, Targets(s).0);
    } else {
      StuckIsPending(s.worker.m31, Targets(s).1, k.m31);
      WrongIffPending(s.worker.m31, Targets(s).1);
    }
  }

  /** A module after one write that it acknowledges. */
  function Written(d: Device, target: Word32, stuck: set<nat>): Device
    requires Pending(d, target)
  {
    var ch := First(Changed(d, target));
    AfterWrite(d, true, Some(Answer(d.relays, stuck, ch, target[ch])))
  }

  /** A pass writes the first module that differs and touches nothing else. */
  lemma AttemptWrites(s: Between, due: bool, k: Stuck)
    requires Mismatch(s) > 0
    ensures var s', w, (t1, t2) := Attempt(s, due, k), s.worker, Targets(s);
            && s'.phase == s.phase && Targets(s') == (t1, t2)
            && (if Pending(w.waveshare, t1) then s'.worker == w.(waveshare := Written(w.waveshare, t1, k.waveshare))
                else Pending(w.m31, t2) && s'.worker == w.(m31 := Written(w.m31, t2, k.m31)))
  {
    AttemptIsRound(s, due, k);
    var at := AtSnapshot(s, due).at;
    RoundWrites(s, due, Answer(Dev(s.worker, at.u).relays, k.Of(at.u), at.channel, at.on));
  }

  lemma AttemptStep(s: Between, due: bool, k: Stuck)
    requires Mismatch(s) > 0
    ensures Hopeless(s, k) ==> Starves(s, Attempt(s, due, k), k)
    ensures !Hopeless(s, k) ==> !Hopeless(Attempt(s, due, k), k) && Mismatch(Attempt(s, due, k)) == Mismatch(s) - 1
  {
    AttemptWrites(s, due, k);
    var s' := Attempt(s, due, k);
    var (t1, t2) := Targets(s);
    if StuckWrong(s.worker.waveshare, t1, k.waveshare) {
      StuckIsPending(s.worker.waveshare, t1, k.waveshare);
    }
    if Pending(s.worker.waveshare, t1) {
      OneWrite(s.worker.waveshare, t1, k.waveshare);
    } else {
      OneWrite(s.worker.m31, t2, k.m31);
    }
  }

  lemma StuckIsPending(d: Device, target: Word32, stuck: set<nat>)
    requires StuckWrong(d, target, stuck)
    ensures Pending(d, target)
  {
    var i: nat :| i in stuck && i < d.outputs && d.relays[i] != target[i];
    assert Changed(d, target)[i];
  }

  /** Still writing, with the poll phase where it was; the M31 module is untouched if it is the
      Waveshare module that is stuck. */
  predicate Starves(s: Sys, s': Sys, k: Stuck) {
    && Hopeless(s', k) && s'.phase == s.phase
    && (StuckWrong(s.worker.waveshare, Targets(s).0, k.waveshare) ==>
          s'.worker.m31 == s.worker.m31 && StuckWrong(s'.worker.waveshare, Targets(s').0, k.waveshare))
  }

  lemma StarvesTrans(s: Sys, s1: Sys, s': Sys, k: Stuck)
    requires Starves(s, s1, k) && Starves(s1, s', k)
    ensures Starves(s, s', k)
  {
  }

  lemma Settles(s: Between, due: bool, k: Stuck, n: nat)
    requires n >= Mismatch(s) && !Hopeless(s, k)
    ensures Mismatch(Attempts(s, due, k, n)) == 0
  {
    var f := (x: Between) => Attempt(x, due, k);
    var keep, measure := (x: Between) => !Hopeless(x, k), (x: Between) => Mismatch(x);
    forall x: Between | keep(x) && measure(x) > 0
      ensures keep(f(x)) && measure(f(x)) < measure(x)
    {
      AttemptStep(x, due, k);
    }
    UsedUp(f, keep, measure, s, n);
  }

  /** A stuck coil that differs is retried for ever. */
  lemma StuckCoilStarves(s: Between, due: bool, k: Stuck, n: nat)
    requires Hopeless(s, k)
    ensures Starves(s, Attempts(s, due, k, n), k)
  {
    var f, keep := (x: Between) => Attempt(x, due, k), (x: Between) => Starves(s, x, k);
    forall x: Between | keep(x) ensures keep(f(x)) {
      HopelessIsMismatch(x, k);
      AttemptStep(x, due, k);
      StarvesTrans(s, x, f(x), k);
    }
    Kept(f, keep, s, n);
  }

  /** The exact condition, from any state between passes and for any number of passes that could be
      enough: nothing is left to write if and only if no stuck coil of an available module differs
      from its target. Otherwise every pass is one more write and the poll phase never moves. */
  lemma SettlesIffNoStuckCoilDiffers(s: Between, due: bool, k: Stuck, n: nat)
    requires n >= Mismatch(s)
    ensures var s' := Attempts(s, due, k, n);
            && (Mismatch(s') == 0 <==> !Hopeless(s, k))
            && (Hopeless(s, k) ==> AtSnapshot(s', due).at.Writing? && s'.phase == s.phase)
  {
    if Hopeless(s, k) {
      StuckCoilStarves(s, due, k, n);
      HopelessIsMismatch(Attempts(s, due, k, n), k);
      SnapshotWritesIffMismatch(Attempts(s, due, k, n), due);
    } else {
      Settles(s, due, k, n);
    }
  }
}
