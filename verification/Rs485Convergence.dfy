/** Splitting and merging the process image over two modules, and convergence of the
    hardware to the intent. */
module Rs485Convergence {
  import opened Words
  import opened Options
  import opened Rtu
  import opened Rs485
  import opened Rs485Safety

  // ---- split and merge ------------------------------------------------------------------------

  /** Channel c of the intent reaches exactly one coil: coil c of the Waveshare module if
      c < W, else coil c - W of the M31 module; coils beyond a module's width stay off. */
  lemma RoutedBits(s: Shared, w: Width, m: Width, i: nat)
    requires i < 32
    ensures var t := Target(s, w + m);
            && DeviceTarget(t, 0, w)[i] == (i < w && s.enabled && s.desired[i])
            && DeviceTarget(t, w, m)[i] == (i < m && s.enabled && s.desired[w + i])
  {
  }

  lemma MergedBits(a: Word32, b: Word32, w: Width, m: Width, c: nat)
    requires Clean(a, w) && Clean(b, m) && c < 64
    ensures Merge(a, b, w)[c] == if c < w then a[c] else c - w < m && b[c - w]
  {
  }

  /** What was last read of the coil behind channel c: Waveshare coil c for c < W, M31 coil c - W
      for W <= c < W + M, and nothing above. */
  predicate CoilAt(w: Device, m: Device, c: nat) {
    if c < w.outputs then w.relays[c] else c - w.outputs < m.outputs && m.relays[c - w.outputs]
  }

  /** Splitting a target and merging the parts is the identity on the low W + M bits, for
      every pair of widths up to 32 and 32. */
  lemma MergeInvertsSplit(s: Shared, w: Width, m: Width)
    ensures var t := Target(s, w + m); Merge(DeviceTarget(t, 0, w), DeviceTarget(t, w, m), w) == t
  {
    var t := Target(s, w + m);
    var a, b := DeviceTarget(t, 0, w), DeviceTarget(t, w, m);
    forall c | 0 <= c < 64 ensures Merge(a, b, w)[c] == t[c] {
      MergedBits(a, b, w, m, c);
      if c < w {
        RoutedBits(s, w, m, c);
      } else if c - w < m {
        RoutedBits(s, w, m, c - w);
      }
    }
  }

  /** The published bitmap determines both modules' readbacks. */
  lemma SplitInvertsMerge(a: Word32, b: Word32, w: Width, m: Width)
    requires Clean(a, w) && Clean(b, m)
    ensures DeviceTarget(Merge(a, b, w), 0, w) == a && DeviceTarget(Merge(a, b, w), w, m) == b
  {
    var u := Merge(a, b, w);
    forall i | 0 <= i < 32 ensures DeviceTarget(u, 0, w)[i] == a[i] && DeviceTarget(u, w, m)[i] == b[i] {
      MergedBits(a, b, w, m, i);
      MergedBits(a, b, w, m, w + i);
    }
  }

  // ---- the measure ------------------------------------------------------------------------------

  function Count(w: Word): nat {
    if w == [] then 0 else Count(w[..|w| - 1]) + (if w[|w| - 1] then 1 else 0)
  }

  lemma {:induction false} CountCleared(w: Word, i: nat)
    requires i < |w| && w[i]
    ensures Count(w) == Count(w[i := false]) + 1
  {
    var n := |w| - 1;
    if i < n {
      CountCleared(w[..n], i);
      assert w[i := false][..n] == w[..n][i := false];
    } else {
      assert w[i := false][..n] == w[..n];
    }
  }

  lemma {:induction false} CountZero(w: Word)
    ensures Count(w) == 0 <==> First(w) == |w|
  {
    if w != [] {
      var n := |w| - 1;
      CountZero(w[..n]);
      if Count(w[..n]) == 0 {
        assert forall j :: 0 <= j < n ==> !w[..n][j];
        assert First(w) >= n;
      } else {
        assert w[..n][First(w[..n])];
      }
    }
  }

  /** Channels of an available module whose readback differs from the target. */
  function Wrong(d: Device, target: Word32): nat {
    if Available(d) then Count(Changed(d, target)) else 0
  }

  function Mismatch(s: Sys): nat {
    Wrong(s.worker.waveshare, Targets(s).0) + Wrong(s.worker.m31, Targets(s).1)
  }

  lemma WrongIffPending(d: Device, target: Word32)
    ensures Wrong(d, target) > 0 <==> Pending(d, target)
  {
    CountZero(Changed(d, target));
  }

  /** apply_pending_output finds nothing to write exactly when no available module differs. */
  lemma SnapshotWritesIffMismatch(s: Sys, due: bool)
    requires s.at == Top
    ensures AtSnapshot(s, due).at.Writing? <==> Mismatch(s) > 0
  {
    WrongIffPending(s.worker.waveshare, Targets(s).0);
    WrongIffPending(s.worker.m31, Targets(s).1);
  }

  // ---- one round with a module that does what it acknowledges --------------------------------------

  /** Target snapshot, acknowledged write with readback `r`, publish. */
  function Round(s: Sys, due: bool, r: Word32): Sys {
    Step(Step(Step(s, Snapshot(due)), Wrote(true, Some(r))), Published)
  }

  /** The readback of a module that obeyed the write now under way. */
  function Obeyed(s: Sys, due: bool): Word32
    requires Inv(s) && s.at == Top
  {
    SnapshotKeepsInv(s, due);
    var s1 := AtSnapshot(s, due);
    if s1.at.Writing? then Dev(s1.worker, s1.at.u).relays[s1.at.channel := s1.at.on] else Zero(32)
  }

  lemma ObeyedDevice(d: Device, target: Word32)
    requires DeviceOk(d) && Pending(d, target)
    ensures var ch := First(Changed(d, target));
            var d' := AfterWrite(d, true, Some(d.relays[ch := target[ch]]));
            && DeviceOk(d') && Available(d') && d'.outputs == d.outputs
            && Wrong(d', target) == Wrong(d, target) - 1
  {
    var ch := First(Changed(d, target));
    WriteIsNeeded(Waveshare, d, target);
    var d' := AfterWrite(d, true, Some(d.relays[ch := target[ch]]));
    assert d'.relays == d.relays[ch := target[ch]];
    assert Changed(d', target) == Changed(d, target)[ch := false];
    CountCleared(Changed(d, target), ch);
  }

  /** Publishing from a worker with an available module never rewrites the intent. */
  lemma PublishKeepsIntent(s: Sys)
    requires s.at == Publishing && (Available(s.worker.waveshare) || Available(s.worker.m31))
    ensures var s' := Step(s, Published);
            && s'.shared.desired == s.shared.desired && s'.shared.enabled == s.shared.enabled
            && s'.worker == s.worker && s'.phase == s.phase && s'.at == Top
  {
  }

  /** Each apply_pending_output call on obedient modules reduces the number of wrong channels
      over both modules by exactly one, without disturbing intent, poll phase or which modules
      are available. */
  lemma RoundProgress(s: Sys, due: bool)
    requires Inv(s) && s.at == Top && Mismatch(s) > 0
    ensures var s' := Round(s, due, Obeyed(s, due));
            && Inv(s') && s'.at == Top && s'.phase == s.phase
            && s'.shared.desired == s.shared.desired && s'.shared.enabled == s.shared.enabled
            && Targets(s') == Targets(s)
            && Mismatch(s') == Mismatch(s) - 1
            && (Available(s'.worker.waveshare) <==> Available(s.worker.waveshare))
            && (Available(s'.worker.m31) <==> Available(s.worker.m31))
  {
    SnapshotWritesIffMismatch(s, due);
    RoundKeepsInv(s, due, Obeyed(s, due));
    RoundWrites(s, due, Obeyed(s, due));
    var u := AtSnapshot(s, due).at.u;
    ObeyedDevice(Dev(s.worker, u), TargetOf(s, u));
  }

  lemma RoundKeepsInv(s: Sys, due: bool, r: Word32)
    requires Inv(s) && s.at == Top
    ensures Inv(Round(s, due, r))
  {
    StepKeepsInv(s, Snapshot(due));
    StepKeepsInv(Step(s, Snapshot(due)), Wrote(true, Some(r)));
    StepKeepsInv(Step(Step(s, Snapshot(due)), Wrote(true, Some(r))), Published);
  }

  function TargetOf(s: Sys, u: Unit): Word32 {
    match u case Waveshare => Targets(s).0 case M31 => Targets(s).1
  }

  function WithDev(w: Worker, u: Unit, d: Device): Worker {
    match u case Waveshare => w.(waveshare := d) case M31 => w.(m31 := d)
  }

  /** What a call that finds something to write does, whatever is read back: one module changes,
      the first that differs, at its first wrong coil. */
  lemma RoundWrites(s: Sys, due: bool, r: Word32)
    requires Inv(s) && s.at == Top && AtSnapshot(s, due).at.Writing?
    ensures var at, s' := AtSnapshot(s, due).at, Round(s, due, r);
            var d := Dev(s.worker, at.u);
            && Pending(d, TargetOf(s, at.u)) && at == WriteFor(at.u, d, TargetOf(s, at.u))
            && (at.u == M31 ==> !Pending(s.worker.waveshare, TargetOf(s, Waveshare)))
            && s'.worker == WithDev(s.worker, at.u, AfterWrite(d, true, Some(r)))
            && s'.at == Top && s'.phase == s.phase
            && s'.shared.desired == s.shared.desired && s'.shared.enabled == s.shared.enabled
  {
    PublishKeepsIntent(Step(Step(s, Snapshot(due)), Wrote(true, Some(r))));
  }

  // ---- convergence ------------------------------------------------------------------------------------

  function Rounds(s: Sys, due: bool, n: nat): (r: Sys)
    requires Inv(s) && s.at == Top && n <= Mismatch(s)
    ensures Inv(r) && r.at == Top
    decreases n
  {
    if n == 0 then s
    else
      RoundProgress(s, due);
      Rounds(Round(s, due, Obeyed(s, due)), due, n - 1)
  }

  /** Every module that has outputs can be written. */
  predicate AllAvailable(w: Worker) {
    (w.waveshare.outputs > 0 ==> Available(w.waveshare)) && (w.m31.outputs > 0 ==> Available(w.m31))
  }

  lemma SettledDevice(d: Device, target: Word32, full: Word64, first: Width)
    requires DeviceOk(d) && target == DeviceTarget(full, first, d.outputs) && (d.outputs > 0 ==> Available(d))
    ensures Wrong(d, target) == 0 <==> d.relays == target
  {
    CountZero(Changed(d, target));
    if Wrong(d, target) == 0 {
      forall i | 0 <= i < 32 ensures d.relays[i] == target[i] {
        if i < d.outputs {
          assert !Changed(d, target)[i];
        }
      }
    } else {
      var i := First(Changed(d, target));
      assert Changed(d, target)[i];
    }
  }

  lemma SettledDevices(s: Sys)
    requires Inv(s) && AllAvailable(s.worker)
    ensures Mismatch(s) == 0
            <==> s.worker.waveshare.relays == Targets(s).0 && s.worker.m31.relays == Targets(s).1
  {
    var w, m := s.worker.waveshare, s.worker.m31;
    var t := Target(s.shared, w.outputs + m.outputs);
    SettledDevice(w, Targets(s).0, t, 0);
    SettledDevice(m, Targets(s).1, t, w.outputs);
  }

  /** With every module available there is nothing left to write exactly when the published
      relay bitmap equals the masked target. */
  lemma SettledIffPublished(s: Sys)
    requires Inv(s) && s.at == Top && AllAvailable(s.worker)
    ensures Mismatch(s) == 0
            <==> s.shared.state.relays == Target(s.shared, s.worker.waveshare.outputs + s.worker.m31.outputs)
  {
    var w, m := s.worker.waveshare, s.worker.m31;
    var t := Target(s.shared, w.outputs + m.outputs);
    SettledDevices(s);
    MergeInvertsSplit(s.shared, w.outputs, m.outputs);
    MergesAlike(w.relays, m.relays, Targets(s).0, Targets(s).1, t, w.outputs, m.outputs);
  }

  lemma MergesAlike(a: Word32, b: Word32, t1: Word32, t2: Word32, t: Word64, w: Width, m: Width)
    requires Clean(a, w) && Clean(b, m) && Merge(t1, t2, w) == t
    requires t1 == DeviceTarget(t, 0, w) && t2 == DeviceTarget(t, w, m)
    ensures a == t1 && b == t2 <==> Merge(a, b, w) == t
  {
    SplitInvertsMerge(a, b, w, m);
  }

  lemma {:induction false} RoundsProgress(s: Sys, due: bool, n: nat)
    requires Inv(s) && s.at == Top && n <= Mismatch(s)
    ensures var s' := Rounds(s, due, n);
            && Mismatch(s') == Mismatch(s) - n
            && s'.shared.desired == s.shared.desired && s'.shared.enabled == s.shared.enabled
            && s'.worker.waveshare.outputs == s.worker.waveshare.outputs
            && s'.worker.m31.outputs == s.worker.m31.outputs
            && (AllAvailable(s'.worker) <==> AllAvailable(s.worker))
    decreases n
  {
    if n > 0 {
      RoundProgress(s, due);
      RoundKeepsPopulation(s, due);
      RoundsProgress(Round(s, due, Obeyed(s, due)), due, n - 1);
    }
  }

  /** Convergence: with a fixed intent and obedient modules, exactly Mismatch(s) coil writes
      bring the published readback to the masked target, and then no more are made. */
  lemma Converges(s: Sys, due: bool)
    requires Inv(s) && s.at == Top && AllAvailable(s.worker)
    ensures var s' := Rounds(s, due, Mismatch(s));
            && s'.shared.desired == s.shared.desired && s'.shared.enabled == s.shared.enabled
            && s'.shared.state.relays == Target(s.shared, s.worker.waveshare.outputs + s.worker.m31.outputs)
            && !AtSnapshot(s', due).at.Writing?
  {
    RoundsProgress(s, due, Mismatch(s));
    var s' := Rounds(s, due, Mismatch(s));
    SettledIffPublished(s');
    SnapshotWritesIffMismatch(s', due);
  }

  lemma RoundKeepsPopulation(s: Sys, due: bool)
    requires Inv(s) && s.at == Top && Mismatch(s) > 0
    ensures var w := Round(s, due, Obeyed(s, due)).worker;
            w.waveshare.outputs == s.worker.waveshare.outputs && w.m31.outputs == s.worker.m31.outputs
  {
    SnapshotWritesIffMismatch(s, due);
  }

  /** The fail-safe target is reached physically: disabled, every relay ends up off. */
  lemma DisabledConvergesToOff(s: Sys, due: bool)
    requires Inv(s) && s.at == Top && AllAvailable(s.worker) && !s.shared.enabled
    ensures Rounds(s, due, Mismatch(s)).shared.state.relays == Zero(64)
  {
    Converges(s, due);
    assert Target(s.shared, s.worker.waveshare.outputs + s.worker.m31.outputs) == Zero(64);
  }

  // ---- when a module does not obey -----------------------------------------------------------------------

  /** An acknowledged write whose readback differs from the last one at most in the written
      coil makes progress exactly when that coil now reads as written. */
  lemma ProgressIffObeyed(d: Device, target: Word32, r: Word32)
    requires DeviceOk(d) && Pending(d, target) && Clean(r, d.outputs)
    requires forall i :: 0 <= i < 32 && i != First(Changed(d, target)) ==> r[i] == d.relays[i]
    ensures var ch := First(Changed(d, target));
            var d' := AfterWrite(d, true, Some(r));
            Wrong(d', target) == (if r[ch] == target[ch] then Wrong(d, target) - 1 else Wrong(d, target))
  {
    var ch := First(Changed(d, target));
    WriteIsNeeded(Waveshare, d, target);
    if r[ch] == target[ch] {
      assert r == d.relays[ch := target[ch]];
      ObeyedDevice(d, target);
    } else {
      assert r == d.relays;
      var d' := AfterWrite(d, true, Some(r));
      assert d'.relays == d.relays;
    }
  }
}
