/** Why a coil is switched on: over every run the intent is what the calls and the falls of the link
    say, last word first, and an ON write goes out only for a channel somebody asked for. */
module Rs485Intent {
  import opened Words
  import opened Options
  import opened Rtu
  import opened Rs485
  import opened Rs485Safety
  import opened Rs485Convergence

  /** A module with outputs is online. */
  predicate Linked(w: Worker) {
    (w.waveshare.outputs > 0 && w.waveshare.online) || (w.m31.outputs > 0 && w.m31.online)
  }

  /** set_outputs counts only while enabled and while the published link is up. */
  predicate Heard(s: Sys, e: Event) {
    e.SetOutputs? && s.shared.enabled && s.shared.state.link
  }

  /** The publish that shows the link fall while enabled. */
  predicate LinkFalls(s: Sys, e: Event) {
    && e.Published? && s.at == Publishing
    && s.shared.enabled && s.shared.state.link && !Linked(s.worker)
  }

  /** The event asks for channel c: by name, or because the coil reads on as the link falls. */
  predicate AsksOn(s: Sys, e: Event, c: nat)
    requires c < 64
  {
    || (Heard(s, e) && e.mask[c] && e.values[c])
    || (LinkFalls(s, e) && CoilAt(s.worker.waveshare, s.worker.m31, c))
  }

  predicate AsksOff(s: Sys, e: Event, c: nat)
    requires c < 64
  {
    || e.SetEnabled?
    || (Heard(s, e) && e.mask[c] && !e.values[c])
    || (LinkFalls(s, e) && !CoilAt(s.worker.waveshare, s.worker.m31, c))
  }

  /** The system as the j-th event finds it. */
  function At(s: Sys, es: seq<Event>, j: nat): Sys
    requires j <= |es|
  {
    Run(s, es[..j])
  }

  predicate NotAskedOffFrom(s: Sys, es: seq<Event>, i: nat, c: nat)
    requires c < 64
  {
    forall j :: i <= j < |es| ==> !AsksOff(At(s, es, j), es[j], c)
  }

  /** Somebody asked for channel c, and nobody against it since. */
  predicate LeftOn(s: Sys, es: seq<Event>, c: nat)
    requires c < 64
  {
    exists i :: 0 <= i < |es| && AsksOn(At(s, es, i), es[i], c) && NotAskedOffFrom(s, es, i + 1, c)
  }

  lemma IntentStep(s: Sys, e: Event, c: nat)
    requires Inv(s) && c < 64
    ensures Step(s, e).shared.desired[c] <==> AsksOn(s, e, c) || (s.shared.desired[c] && !AsksOff(s, e, c))
  {
    if e.Published? && s.at == Publishing {
      MergedBits(s.worker.waveshare.relays, s.worker.m31.relays, s.worker.waveshare.outputs, s.worker.m31.outputs, c);
    }
  }

  /** A call of set_enabled, with either flag, asks for nothing. */
  lemma EnableAsksNothing(s: Sys, enabled: bool, c: nat)
    requires c < 64
    ensures !Step(s, SetEnabled(enabled)).shared.desired[c]
  {
  }

  lemma Prefix(s: Sys, es: seq<Event>, n: nat, j: nat)
    requires j <= n <= |es|
    ensures At(s, es[..n], j) == At(s, es, j)
  {
    assert es[..n][..j] == es[..j];
  }

  lemma RunLast(s: Sys, es: seq<Event>)
    requires es != []
    ensures Run(s, es) == Step(At(s, es, |es| - 1), es[|es| - 1])
  {
    var n := |es| - 1;
    assert es[..n] + [es[n]] == es;
    RunConcat(s, es[..n], [es[n]]);
    RunOne(Run(s, es[..n]), es[n]);
  }

  lemma OneMoreEvent(s: Sys, es: seq<Event>, i: nat, c: nat)
    requires c < 64 && es != [] && i < |es|
    ensures NotAskedOffFrom(s, es, i, c)
            <==> NotAskedOffFrom(s, es[..|es| - 1], i, c) && !AsksOff(At(s, es, |es| - 1), es[|es| - 1], c)
  {
    var n := |es| - 1;
    forall j | 0 <= j < n ensures At(s, es[..n], j) == At(s, es, j) && es[..n][j] == es[j] {
      Prefix(s, es, n, j);
    }
    if NotAskedOffFrom(s, es, i, c) {
      forall j | i <= j < n ensures !AsksOff(At(s, es[..n], j), es[..n][j], c) {
        assert !AsksOff(At(s, es, j), es[j], c);
      }
    }
    if NotAskedOffFrom(s, es[..n], i, c) && !AsksOff(At(s, es, n), es[n], c) {
      forall j | i <= j < |es| ensures !AsksOff(At(s, es, j), es[j], c) {
        if j < n {
          assert !AsksOff(At(s, es[..n], j), es[..n][j], c);
        }
      }
    }
  }

  lemma LeftOnStep(s: Sys, es: seq<Event>, c: nat)
    requires c < 64 && es != []
    ensures var n := |es| - 1;
            LeftOn(s, es, c) <==> AsksOn(At(s, es, n), es[n], c)
                                  || (LeftOn(s, es[..n], c) && !AsksOff(At(s, es, n), es[n], c))
  {
    var n := |es| - 1;
    if LeftOn(s, es, c) {
      var i :| 0 <= i < |es| && AsksOn(At(s, es, i), es[i], c) && NotAskedOffFrom(s, es, i + 1, c);
      if i < n {
        OneMoreEvent(s, es, i + 1, c);
        Prefix(s, es, n, i);
        assert AsksOn(At(s, es[..n], i), es[..n][i], c);
      }
    }
    if AsksOn(At(s, es, n), es[n], c) {
      assert NotAskedOffFrom(s, es, n + 1, c);
    }
    if LeftOn(s, es[..n], c) && !AsksOff(At(s, es, n), es[n], c) {
      var i :| 0 <= i < n && AsksOn(At(s, es[..n], i), es[..n][i], c) && NotAskedOffFrom(s, es[..n], i + 1, c);
      OneMoreEvent(s, es, i + 1, c);
      Prefix(s, es, n, i);
      assert AsksOn(At(s, es, i), es[i], c);
    }
  }

  /** The intent over every run is the last word on each channel: asked for and not against since, or
      on to begin with and never asked against. */
  lemma {:induction false} IntentIsLastWord(s: Sys, es: seq<Event>, c: nat)
    requires Inv(s) && c < 64
    ensures Run(s, es).shared.desired[c]
            <==> LeftOn(s, es, c) || (s.shared.desired[c] && NotAskedOffFrom(s, es, 0, c))
    decreases |es|
  {
    if es != [] {
      var n := |es| - 1;
      IntentIsLastWord(s, es[..n], c);
      RunKeepsInv(s, es[..n]);
      RunLast(s, es);
      IntentStep(At(s, es, n), es[n], c);
      LeftOnStep(s, es, c);
      OneMoreEvent(s, es, 0, c);
    }
  }

  // ---- from the intent to the writes ---------------------------------------------------------------

  /** The channel behind a coil. */
  function ChannelOf(w: Worker, u: Unit, coil: nat): nat {
    match u case Waveshare => coil case M31 => w.waveshare.outputs + coil
  }

  /** An ON write that was decided when its channel was asked for and not against since. */
  predicate Wanted(s: Sys, es: seq<Event>, w: Control) {
    && w.Writing? && ChannelOf(s.worker, w.u, w.channel) < 64
    && exists j :: 0 <= j <= |es| && LeftOn(s, es[..j], ChannelOf(s.worker, w.u, w.channel))
  }

  predicate SameWidths(v: Worker, w: Worker) {
    v.waveshare.outputs == w.waveshare.outputs && v.m31.outputs == w.m31.outputs && v.inputs == w.inputs
  }

  lemma StepKeepsWidths(s: Sys, e: Event)
    ensures SameWidths(Step(s, e).worker, s.worker)
  {
    SkipKeepsView(s.worker, s.phase);
  }

  lemma {:induction false} RunKeepsWidths(s: Sys, es: seq<Event>)
    ensures SameWidths(Run(s, es).worker, s.worker)
    decreases es
  {
    if es != [] {
      StepKeepsWidths(s, es[0]);
      RunKeepsWidths(Step(s, es[0]), es[1..]);
    }
  }

  lemma WantedLater(s: Sys, es: seq<Event>, n: nat, w: Control)
    requires n <= |es| && Wanted(s, es[..n], w)
    ensures Wanted(s, es, w)
  {
    var c := ChannelOf(s.worker, w.u, w.channel);
    var j :| 0 <= j <= n && LeftOn(s, es[..n][..j], c);
    assert es[..n][..j] == es[..j];
  }

  /** A target snapshot chooses an ON only for a channel whose intent is on. */
  lemma ChosenOn(s: Sys, due: bool)
    requires Inv(s) && s.at == Top
    ensures var at := AtSnapshot(s, due).at;
            at.Writing? && at.on ==>
              var c := ChannelOf(s.worker, at.u, at.channel); c < 64 && s.shared.enabled && s.shared.desired[c]
  {
    var w := s.worker;
    var (t1, t2) := Targets(s);
    if Pending(w.waveshare, t1) {
      WriteIsNeeded(Waveshare, w.waveshare, t1);
      RoutedBits(s.shared, w.waveshare.outputs, w.m31.outputs, First(Changed(w.waveshare, t1)));
    } else if Pending(w.m31, t2) {
      WriteIsNeeded(M31, w.m31, t2);
      RoutedBits(s.shared, w.waveshare.outputs, w.m31.outputs, First(Changed(w.m31, t2)));
    }
  }

  /** A write chosen by the last event is wanted. */
  lemma ChosenIsWanted(s: Sys, es: seq<Event>)
    requires Inv(s) && (forall c :: 0 <= c < 64 ==> !s.shared.desired[c]) && es != []
    requires !At(s, es, |es| - 1).at.Writing? && Run(s, es).at.Writing? && Run(s, es).at.on
    ensures Wanted(s, es, Run(s, es).at)
  {
    var n, at := |es| - 1, Run(s, es).at;
    var s1 := At(s, es, n);
    RunLast(s, es);
    RunKeepsInv(s, es[..n]);
    ChosenOn(s1, es[n].pollDue);
    RunKeepsWidths(s, es[..n]);
    IntentIsLastWord(s, es[..n], ChannelOf(s1.worker, at.u, at.channel));
  }

  /** While no write has been made since the call, the one under way may still be there. */
  lemma {:induction false} UnderWayWanted(s: Sys, es: seq<Event>)
    requires Inv(s) && forall c :: 0 <= c < 64 ==> !s.shared.desired[c]
    ensures var at := Run(s, es).at;
            at.Writing? && at.on ==> (at == s.at && CoilWrites(s, es) == []) || Wanted(s, es, at)
    decreases |es|
  {
    if es != [] {
      var n := |es| - 1;
      var s1, e := At(s, es, n), es[n];
      UnderWayWanted(s, es[..n]);
      RunLast(s, es);
      WritesLast(s, es);
      RunKeepsInv(s, es[..n]);
      var at := Run(s, es).at;
      if at.Writing? && at.on {
        if s1.at.Writing? {
          if Wanted(s, es[..n], at) {
            WantedLater(s, es, n, at);
          }
        } else {
          ChosenIsWanted(s, es);
        }
      }
    }
  }

  lemma WritesLast(s: Sys, es: seq<Event>)
    requires es != []
    ensures var n := |es| - 1;
            var at := At(s, es, n).at;
            CoilWrites(s, es) == CoilWrites(s, es[..n]) + if es[n].Wrote? && at.Writing? then [at] else []
  {
    var n := |es| - 1;
    assert es[..n] + [es[n]] == es;
    CoilWritesConcat(s, es[..n], [es[n]]);
    OneWriteAt(At(s, es, n), es[n]);
  }

  predicate AllWanted(s: Sys, es: seq<Event>, ws: seq<Control>) {
    forall i :: 0 <= i < |ws| ==> ws[i].Writing? && (ws[i].on ==> (i == 0 && ws[0] == s.at) || Wanted(s, es, ws[i]))
  }

  lemma {:induction false} WritesWanted(s: Sys, es: seq<Event>)
    requires Inv(s) && forall c :: 0 <= c < 64 ==> !s.shared.desired[c]
    ensures AllWanted(s, es, CoilWrites(s, es))
    decreases |es|
  {
    if es != [] {
      var n, ws := |es| - 1, CoilWrites(s, es);
      var before := CoilWrites(s, es[..n]);
      WritesWanted(s, es[..n]);
      UnderWayWanted(s, es[..n]);
      WritesLast(s, es);
      forall i | 0 <= i < |ws| && ws[i].on ensures (i == 0 && ws[0] == s.at) || Wanted(s, es, ws[i]) {
        if i < |before| {
          assert ws[i] == before[i];
        }
        if Wanted(s, es[..n], ws[i]) {
          WantedLater(s, es, n, ws[i]);
        }
      }
    }
  }

  /** From any call of set_enabled on, in every interleaving, each coil that is switched on, apart from
      a write already under way, was asked for since: by a set_outputs that names its channel on, or
      by a falling link that reads it on, and no one had asked against it when the write was chosen. */
  lemma OnlyAskedOn(s: Sys, enabled: bool, es: seq<Event>)
    requires Inv(s)
    ensures var s' := Step(s, SetEnabled(enabled)); s'.at == s.at && AllWanted(s', es, CoilWrites(s', es))
  {
    var s' := Step(s, SetEnabled(enabled));
    StepKeepsInv(s, SetEnabled(enabled));
    forall c | 0 <= c < 64 ensures !s'.shared.desired[c] {
      EnableAsksNothing(s, enabled, c);
    }
    WritesWanted(s', es);
  }
}
