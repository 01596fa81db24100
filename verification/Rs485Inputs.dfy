/** The discrete inputs of the M31 module: what the comm task sees of them over every run, and that
    every polling round reads them. */
module Rs485Inputs {
  import opened Words
  import opened Options
  import opened Rtu
  import opened Rs485
  import opened Rs485Safety
  import opened Rs485Intent

  /** The event ends a read of the inputs. */
  predicate InputsRead(s: Sys, e: Event) {
    e.Polled? && s.at == Polling(PollInputs)
  }

  /** The polling round goes past the inputs without reading them. */
  predicate InputsPassed(s: Sys, e: Event) {
    e.Snapshot? && s.at == Top && s.phase != PollComplete && Step(s, e).phase == PollComplete
  }

  /** The last good readback of the inputs, each bit below the module's input count; what was known
      before the run when there is none. */
  function LastRead(s: Sys, es: seq<Event>): Word32
    decreases es
  {
    if es == [] then s.worker.inputState
    else
      var n := |es| - 1;
      var s1 := At(s, es, n);
      if InputsRead(s1, es[n]) && es[n].reply.Some? then
        seq(32, i requires 0 <= i < 32 => i < s.worker.inputs && es[n].reply.value[i])
      else LastRead(s, es[..n])
  }

  /** Whether the last read of the inputs was good and no round has passed them by since. */
  predicate LastGood(s: Sys, es: seq<Event>)
    decreases es
  {
    if es == [] then s.worker.inputOk
    else
      var n := |es| - 1;
      var s1 := At(s, es, n);
      if InputsRead(s1, es[n]) then es[n].reply.Some? else !InputsPassed(s1, es[n]) && LastGood(s, es[..n])
  }

  lemma {:induction false} SkipClearsInputs(w: Worker, p: Phase)
    ensures var (w1, q) := SkipTo(w, p);
            && w1 == w.(inputOk := w1.inputOk)
            && (p != PollComplete && q == PollComplete ==> !w1.inputOk && (w.inputs == 0 || !w.m31.online))
            && (p == PollComplete || q != PollComplete ==> w1 == w)
    decreases match p case PollWaveshare => 3 case PollM31 => 2 case PollInputs => 1 case PollComplete => 0
  {
    if Skipped(w, p) {
      SkipClearsInputs(if p == PollInputs then w.(inputOk := false) else w, Next(p));
    }
  }

  lemma InputsStep(s: Sys, e: Event)
    requires Inv(s)
    ensures var w, w' := s.worker, Step(s, e).worker;
            && w'.inputState == (if InputsRead(s, e) && e.reply.Some? then Masked(e.reply.value, w.inputs)
                                 else w.inputState)
            && w'.inputOk == (if InputsRead(s, e) then e.reply.Some? else !InputsPassed(s, e) && w.inputOk)
  {
    if e.Snapshot? && s.at == Top {
      SkipClearsInputs(s.worker, s.phase);
    }
  }

  /** Over every run the worker's inputs are those of the last good read of the M31 module, and they
      count as good from a good read until one fails or a round passes them by. */
  lemma {:induction false} InputsFollowReads(s: Sys, es: seq<Event>)
    requires Inv(s)
    ensures var w := Run(s, es).worker; w.inputState == LastRead(s, es) && w.inputOk == LastGood(s, es)
    decreases |es|
  {
    if es != [] {
      var n := |es| - 1;
      InputsFollowReads(s, es[..n]);
      RunKeepsInv(s, es[..n]);
      RunKeepsWidths(s, es[..n]);
      RunLast(s, es);
      InputsStep(At(s, es, n), es[n]);
    } else {
      assert Run(s, es) == s;
    }
  }

  /** What is published between two passes: the last good read of the inputs, with nothing above 32,
      valid exactly when the module has inputs, is online and that read still counts; and the link is up
      exactly when a module with outputs is online. */
  lemma PublishedInputs(s: Sys, es: seq<Event>)
    requires Inv(s) && Run(s, es).at != Publishing
    ensures var s' := Run(s, es);
            && (forall i :: 0 <= i < 64 ==> s'.shared.state.inputs[i] == (i < 32 && LastRead(s, es)[i]))
            && (s'.shared.state.inputValid <==> s.worker.inputs > 0 && s'.worker.m31.online && LastGood(s, es))
            && (s'.shared.state.link <==> Linked(s'.worker))
  {
    RunKeepsInv(s, es);
    RunKeepsWidths(s, es);
    InputsFollowReads(s, es);
  }

  /** A polling round ends with a read of the inputs, or there is nothing to read: no inputs, or a
      module that is offline. */
  lemma RoundReadsInputs(s: Sys, e: Event)
    requires Inv(s) && s.phase != PollComplete && Step(s, e).phase == PollComplete
    ensures InputsRead(s, e) || (InputsPassed(s, e) && (s.worker.inputs == 0 || !s.worker.m31.online))
  {
    if e.Snapshot? && s.at == Top {
      SkipClearsInputs(s.worker, s.phase);
    }
  }
}
