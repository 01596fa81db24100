/** When the discrete plane sends: what a SETUP sets, which loop calls send a STATE, and the heartbeat over
    any number of loop calls. */
module DiscreteTiming {
  import opened Bytes
  import opened Options
  import opened Words
  import opened Discrete

  /** SETUP with a non-zero flag: the plane is on with nothing wanted, the backend is told so, a STATE is due,
      and the report period is the one sent, 500 ms for 0. */
  lemma SetupOn(g: Glue, enable: byte, reportMs: u16, answer: Option<Hw>, now: u32)
    requires enable != 0
    ensures var (g', calls) := Setup(g, enable, reportMs, answer, now);
            && g'.enabled && !g'.disabling && g'.pending && calls == [SetEnabled(true)]
            && g'.reportMs == (if reportMs == 0 then 500 else reportMs)
            && (forall c :: 0 <= c < 64 ==> !g'.desired[c])
            && g'.hw == Snapshot(answer) && g'.seqNo == g.seqNo && g'.lastStateMs == g.lastStateMs
  {
    RefreshIsSnapshot(g, answer);
  }

  /** SETUP with flag 0: the backend is told to switch off; a plane that was on stays on to
      confirm it, from now on the clock, with a STATE due; the report period stays. */
  lemma SetupOff(g: Glue, reportMs: u16, answer: Option<Hw>, now: u32)
    ensures var (g', calls) := Setup(g, 0, reportMs, answer, now);
            && g'.enabled == g.enabled && g'.disabling == g.enabled && calls == [SetEnabled(false)]
            && (g.enabled ==> g'.disableStarted == now && g'.pending)
            && g'.reportMs == g.reportMs && (forall c :: 0 <= c < 64 ==> !g'.desired[c])
            && g'.hw == g.hw && g'.seqNo == g.seqNo && g'.lastStateMs == g.lastStateMs
  {
  }

  /** A reset tells the backend to switch off, and goes back to the default period. */
  lemma ResetEffect(g: Glue)
    ensures var (g', calls) := Reset(g);
            && !g'.enabled && !g'.disabling && !g'.pending && calls == [SetEnabled(false)]
            && g'.reportMs == 500 && (forall c :: 0 <= c < 64 ==> !g'.desired[c])
            && g'.seqNo == g.seqNo
  {
  }

  /** A SET reaches the backend if and only if the plane is on and not shutting down, the link
      is up, and a channel below the output count is addressed; then with exactly those
      channels. */
  lemma SetReachesBackend(g: Glue, c: Config, mask: Word64, values: Word64, answer: Option<Hw>)
    ensures var (g', calls) := Set(g, c, mask, values, answer);
            && (forall i :: 0 <= i < 64 ==>
                  g'.desired[i] == if calls != [] && i < c.outputs && mask[i] then values[i] else g.desired[i])
            && (calls != [] <==> g.enabled && !g.disabling && answer.Some? && answer.value.link
                                 && exists i :: 0 <= i < c.outputs && mask[i])
            && (calls != [] ==> |calls| == 1 && calls[0].SetOutputs?
                                && forall i :: 0 <= i < 64 ==>
                                     && calls[0].mask[i] == (i < c.outputs && mask[i])
                                     && (i < c.outputs ==> calls[0].values[i] == values[i]))
  {
    var v := ValidOutputs(c);
    var m := And(mask, v);
    assert forall i :: 0 <= i < 64 ==> v[i] == (i < c.outputs);
    assert forall i :: 0 <= i < 64 ==> m[i] == (i < c.outputs && mask[i]);
    if m != Zero(64) {
      var i :| 0 <= i < 64 && m[i] != Zero(64)[i];
    }
  }

  /** The backend's state differs from what was last seen of it. */
  predicate Changed(g: Glue, answer: Option<Hw>) {
    !g.hwSeen || Snapshot(answer) != g.hw
  }

  /** A STATE is due: one is pending, the hardware changed, the disable is over, or the last one
      was `reportMs` or more ago. */
  predicate Due(g: Glue, call: LoopCall) {
    || g.pending || Changed(g, call.answer) || Elapsed(call.now, g.lastStateMs) >= g.reportMs
    || (g.disabling && Ends(call, g.disableStarted))
  }

  /** A loop call sends exactly one STATE or none: one if and only if the plane is on, has
      channels, UDP works and a STATE is due; and that is the last STATE's time from then on. */
  lemma LoopSendsIff(g: Glue, c: Config, call: LoopCall)
    ensures var (g', sent) := Loop(g, c, call.answer, call.now, call.udpOk);
            && |sent| <= 1
            && (sent != [] <==> g.enabled && c.Width() > 0 && call.udpOk && Due(g, call))
            && (sent != [] ==> g'.lastStateMs == call.now && g'.seqNo == After(g.seqNo))
            && (sent == [] && c.Width() > 0 ==> g'.lastStateMs == g.lastStateMs && g'.seqNo == g.seqNo)
            && g'.reportMs == g.reportMs
  {
    if g.enabled {
      var g1 := Refresh(g, call.answer);
      RefreshMarks(g, call.answer);
      TicksWrap(call.now, g.lastStateMs);
      EndsIffOver(g, call);
      EmitSends(g1, c, call.now, call.udpOk);
      EmitSends(g1.(pending := true), c, call.now, call.udpOk);
    }
  }

  lemma RefreshMarks(g: Glue, answer: Option<Hw>)
    ensures var g1 := Refresh(g, answer);
            && g1 == g.(hw := g1.hw, hwSeen := g1.hwSeen, pending := g1.pending)
            && (g1.pending <==> g.pending || (Changed(g, answer) && g.enabled))
  {
    RefreshIsSnapshot(g, answer);
  }

  lemma EndsIffOver(g: Glue, call: LoopCall)
    ensures DisableOver(Refresh(g, call.answer), call.now) <==> Ends(call, g.disableStarted)
  {
    RefreshShows(g, call.answer);
    TicksWrap(call.now, g.disableStarted);
  }

  lemma EmitSends(g: Glue, c: Config, now: u32, udpOk: bool)
    ensures var (g', sent) := Emit(g, c, now, udpOk);
            && |sent| <= 1 && (sent != [] <==> c.Width() > 0 && udpOk) && g'.reportMs == g.reportMs
            && (sent != [] ==> g'.lastStateMs == now && g'.seqNo == After(g.seqNo))
            && (sent == [] && c.Width() > 0 ==> g'.lastStateMs == g.lastStateMs && g'.seqNo == g.seqNo)
  {
  }

  predicate Sends(g: Glue, c: Config, call: LoopCall) {
    Loop(g, c, call.answer, call.now, call.udpOk).1 != []
  }

  /** When the last STATE went out, over any list of loop calls. */
  function LastSent(g: Glue, c: Config, calls: seq<LoopCall>): u32 {
    if calls == [] then g.lastStateMs
    else
      var n := |calls| - 1;
      if Sends(Loops(g, c, calls[..n]), c, calls[n]) then calls[n].now else LastSent(g, c, calls[..n])
  }

  lemma {:induction false} LastSentKept(g: Glue, c: Config, calls: seq<LoopCall>)
    requires c.Width() > 0
    ensures Loops(g, c, calls).lastStateMs == LastSent(g, c, calls) && Loops(g, c, calls).reportMs == g.reportMs
  {
    if calls != [] {
      var n := |calls| - 1;
      LastSentKept(g, c, calls[..n]);
      LoopSendsIff(Loops(g, c, calls[..n]), c, calls[n]);
    }
  }

  /** Nothing about the hardware changes, and UDP works. */
  predicate Quiet(g: Glue, calls: seq<LoopCall>) {
    forall i :: 0 <= i < |calls| ==> calls[i].udpOk && !Changed(g, calls[i].answer)
  }

  lemma {:induction false} QuietStays(g: Glue, c: Config, calls: seq<LoopCall>)
    requires Quiet(g, calls) && g.enabled && !g.disabling && !g.pending
    ensures var g' := Loops(g, c, calls);
            g'.enabled && !g'.disabling && !g'.pending && g'.hwSeen == g.hwSeen && g'.hw == g.hw
  {
    if calls != [] {
      var n := |calls| - 1;
      assert forall i :: 0 <= i < n ==> calls[..n][i] == calls[i];
      QuietStays(g, c, calls[..n]);
      QuietLoop(Loops(g, c, calls[..n]), c, calls[n]);
    }
  }

  lemma QuietLoop(g: Glue, c: Config, call: LoopCall)
    requires g.enabled && !g.disabling && !g.pending && call.udpOk && !Changed(g, call.answer)
    ensures var g' := Loop(g, c, call.answer, call.now, call.udpOk).0;
            g'.enabled && !g'.disabling && !g'.pending && g'.hwSeen == g.hwSeen && g'.hw == g.hw
  {
    RefreshMarks(g, call.answer);
    RefreshIsSnapshot(g, call.answer);
  }

  /** The heartbeat: while nothing changes and UDP works, the next loop call sends a STATE if and only if the
      last one went out `reportMs` or more before, on a clock that counts modulo 2^32. */
  lemma Heartbeat(g: Glue, c: Config, calls: seq<LoopCall>, call: LoopCall)
    requires Quiet(g, calls + [call]) && g.enabled && !g.disabling && !g.pending && c.Width() > 0
    ensures Sends(Loops(g, c, calls), c, call) <==> Elapsed(call.now, LastSent(g, c, calls)) >= g.reportMs
  {
    var all := calls + [call];
    assert all[|calls|] == call && forall i :: 0 <= i < |calls| ==> all[i] == calls[i];
    QuietStays(g, c, calls);
    LastSentKept(g, c, calls);
    LoopSendsIff(Loops(g, c, calls), c, call);
  }

  // ---- the bytes of SET and STATE -------------------------------------------------------------------------

  /** The bits of a bitmap: eight to a byte, the lowest one first. */
  lemma BitmapBit(bitmap: seq<byte>, i: nat)
    requires i < 8 * |bitmap|
    ensures FromBytes(bitmap)[i] <==> Halved(bitmap[i / 8], i % 8) % 2 == 1
  {
    BitSetIsBit(bitmap, i);
    BitOfValue(bitmap[i / 8], 8, i % 8);
  }

  /** The header of a SET: base channel in bytes 0 to 3, count in 4 and 5, the lowest byte first. */
  lemma SetHeader(payload: seq<byte>)
    requires |payload| >= 6
    ensures FromLe32(payload[..4]) == payload[0] as int + 256 * payload[1] as int + 0x1_0000 * payload[2] as int
                                      + 0x100_0000 * payload[3] as int
    ensures FromLe16(payload[4..6]) == payload[4] as int + 256 * payload[5] as int
  {
  }

  /** Behind it the two bitmaps: channel c is written exactly when its apply bit is set, with its
      value bit. */
  lemma SetBytes(payload: seq<byte>, c: nat)
    requires DecodeSet(payload).Some? && c < 64
    ensures |payload| >= 6
    ensures var base, count := FromLe32(payload[..4]), FromLe16(payload[4..6]);
            var n := (count + 7) / 8;
            && |payload| == 6 + n + n
            && BitmapsSet(FromBytes(payload[6..6 + n]), FromBytes(payload[6 + n..6 + n + n]), base, count,
                          DecodeSet(payload).value, c)
  {
    var base, count := FromLe32(payload[..4]), FromLe16(payload[4..6]);
    var n := BitmapBytes(count);
    DecodedWindows(payload);
    WindowsSet(FromBytes(payload[6..6 + n]), FromBytes(payload[6 + n..6 + n + n]), base, count, c);
  }

  /** The masks have channel c as the bitmaps have bit c - base. */
  predicate BitmapsSet(apply: Word, values: Word, base: nat, count: nat, m: Masks, c: nat)
    requires |apply| == |values| >= count && c < 64
  {
    && (m.apply[c] <==> base <= c < base + count && apply[c - base])
    && (m.values[c] <==> m.apply[c] && values[c - base])
  }

  lemma WindowsSet(apply: Word, values: Word, base: nat, count: nat, c: nat)
    requires |apply| == |values| >= count && c < 64
    ensures var a, v := Window(apply, base, count), Window(values, base, count);
            BitmapsSet(apply, values, base, count, Masks(a, And(a, v)), c)
  {
    WindowBit(base, count, apply, values, c);
  }

  lemma DecodedWindows(payload: seq<byte>)
    requires DecodeSet(payload).Some?
    ensures |payload| >= 6
    ensures var base, count := FromLe32(payload[..4]), FromLe16(payload[4..6]);
            var n := BitmapBytes(count);
            && |payload| == 6 + n + n
            && var apply, values := Window(FromBytes(payload[6..6 + n]), base, count),
                                    Window(FromBytes(payload[6 + n..6 + n + n]), base, count);
               DecodeSet(payload).value == Masks(apply, And(apply, values))
  {
    var n := BitmapBytes(FromLe16(payload[4..6]));
    var bitmaps := payload[SET_HEADER..];
    assert bitmaps[..n] == payload[6..6 + n] && bitmaps[n..] == payload[6 + n..6 + n + n];
  }

  /** The header of a STATE: base channel 0, width in bytes 4 and 5, link, number. */
  lemma StateHeader(c: Config, hw: Hw, seqNo: byte)
    ensures var p := StatePayload(c, hw, seqNo);
            && p[0] == p[1] == p[2] == p[3] == 0 && p[4] as int + 256 * p[5] as int == c.Width()
            && p[6] == (if hw.link then 1 else 0) && p[7] == seqNo
  {
    var n := BitmapBytes(c.Width());
    StateFirst(Le16(c.Width()), if hw.link then 1 else 0, seqNo, ToBytes(hw.relays, n), ToBytes(hw.inputs, n),
                ToBytes(hw.inputValid, n));
  }

  /** Behind it the maps of relays, inputs and input validity, as many bytes each as the width
      needs; which bit is which channel, BitmapRoundTrip and BitmapBit say. */
  lemma StateMaps(c: Config, hw: Hw, seqNo: byte)
    ensures var p, n := StatePayload(c, hw, seqNo), BitmapBytes(c.Width());
            && |p| == 8 + n + n + n && p[8..8 + n] == ToBytes(hw.relays, n)
            && p[8 + n..8 + n + n] == ToBytes(hw.inputs, n) && p[8 + n + n..8 + n + n + n] == ToBytes(hw.inputValid, n)
  {
    var n := BitmapBytes(c.Width());
    Slices([0, 0, 0, 0] + Le16(c.Width()) + [if hw.link then 1 else 0, seqNo], ToBytes(hw.relays, n),
           ToBytes(hw.inputs, n), ToBytes(hw.inputValid, n));
  }

  lemma Slices(head: seq<byte>, a: seq<byte>, b: seq<byte>, c: seq<byte>)
    requires |head| == 8 && |a| == |b| == |c|
    ensures var p, n := head + a + b + c, |a|;
            && |p| == 8 + n + n + n
            && p[8..8 + n] == a && p[8 + n..8 + n + n] == b && p[8 + n + n..8 + n + n + n] == c
  {
  }

  lemma StateFirst(w: seq<byte>, link: byte, seqNo: byte, a: seq<byte>, b: seq<byte>, c: seq<byte>)
    requires |w| == 2 && |a| == |b| == |c|
    ensures var p, n := [0, 0, 0, 0] + w + [link, seqNo] + a + b + c, |a|;
            && |p| == 8 + n + n + n && p[0] == p[1] == p[2] == p[3] == 0 && p[4] == w[0] && p[5] == w[1]
            && p[6] == link && p[7] == seqNo
  {
  }
}
