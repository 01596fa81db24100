/** The worker's transactions over modules that follow the standard: what is polled is what the
    module holds, and a write ends with the coil switched and read back. */
module Rs485Bus {
  import opened Words
  import opened Options
  import opened ModbusCrc
  import opened Rtu
  import opened Rs485
  import opened Rs485Safety
  import opened Rs485Task

  /** A module on the bus under its own number, with as many coils as were discovered. */
  predicate Plugged(s: Sys, u: Unit, d: Slave) {
    d.unit == (if u == Waveshare then 1 else 2) && |d.coils| == Dev(s.worker, u).outputs
  }

  /** What the line delivers when a module answers a frame. */
  function Delivered(d: Slave, frame: seq<Octet>): Line {
    var reply := Serve(d, frame).1;
    Line(true, if reply.Some? then reply.value else [])
  }

  /** The word shows the bits, and nothing above them. */
  predicate Holds(w: Word32, bits: Word) {
    forall i :: 0 <= i < 32 ==> w[i] == (i < |bits| && bits[i])
  }

  /** A poll of a module's outputs reads the coils it holds and changes none of them. */
  lemma PollShowsCoils(s: Sys, u: Unit, d: Slave, env: Env)
    requires s.at == Polling(PhaseOf(u)) && Dev(s.worker, u).outputs > 0 && Plugged(s, u, d)
    requires env.answer == Delivered(d, ReadRequest(s))
    ensures Serve(d, ReadRequest(s)).0 == d
    ensures var t := Transaction(s, env); t.Polled? && t.reply.Some? && Holds(t.reply.value, d.coils)
  {
    ReadReachesBits(d, READ_COILS, 0, |d.coils|);
  }

  /** A poll of the inputs reads the M31 module's discrete inputs. */
  lemma PollShowsInputs(s: Sys, d: Slave, env: Env)
    requires s.at == Polling(PollInputs) && s.worker.inputs > 0 && s.worker.m31.online
    requires d.unit == 2 && |d.inputs| == s.worker.inputs && env.answer == Delivered(d, ReadRequest(s))
    ensures Serve(d, ReadRequest(s)).0 == d
    ensures var t := Transaction(s, env); t.Polled? && t.reply.Some? && Holds(t.reply.value, d.inputs)
  {
    ReadReachesBits(d, READ_INPUTS, 0, |d.inputs|);
  }

  /** A write sends two requests: the first switches the chosen coil and no other, the second
      reads the coils as they then are; so the write is acknowledged and the coil is seen as it
      was wanted. */
  lemma WriteSwitchesCoil(s: Sys, d: Slave, env: Env)
    requires s.at.Writing? && s.at.channel < Dev(s.worker, s.at.u).outputs && Plugged(s, s.at.u, d)
    requires env.echo == Delivered(d, Requests(s, env)[0])
    requires |Requests(s, env)| == 2 ==>
               env.answer == Delivered(d.(coils := d.coils[s.at.channel := s.at.on]), Requests(s, env)[1])
    ensures var after: Slave := d.(coils := d.coils[s.at.channel := s.at.on]);
            && |Requests(s, env)| == 2 && Serve(d, Requests(s, env)[0]).0 == after
            && Serve(after, Requests(s, env)[1]).0 == after
            && var t := Transaction(s, env);
               t.Wrote? && t.acked && t.readback.Some? && Holds(t.readback.value, after.coils)
  {
    var after: Slave := d.(coils := d.coils[s.at.channel := s.at.on]);
    WriteReachesCoil(d, s.at.channel, s.at.on);
    ReadReachesBits(after, READ_COILS, 0, |after.coils|);
  }
}
