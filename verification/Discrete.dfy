/** The discrete data plane: the SET and STATE wire forms, and components/lccore/
    discrete_glue.c as a state machine on values. */
module Discrete {
  import opened Bytes
  import opened Options
  import opened Words
  import Rs485
  import Rs485Convergence

  type Word64 = Rs485.Word64

  const SET_HEADER := 6
  const STATE_HEADER := 8
  const DEFAULT_REPORT_MS := 500
  const DISABLE_TIMEOUT_MS := 2000
  const MAX_CHANNELS := 64

  function BitmapBytes(count: nat): nat {
    (count + 7) / 8
  }

  // ---- bitmaps -----------------------------------------------------------------------------

  /** `(uint8_t)w`: the low byte of a word. */
  function LowByte(w: Word): byte
    requires |w| >= 8
  {
    ValueBound(w[..8]);
    Value(w[..8])
  }

  lemma ValueBound(w: Word)
    requires |w| == 8
    ensures Value(w) < 256
  {
    ValueBelow(w);
    assert Pow2(8) == 256 by { assert Pow2(4) == 16 && Pow2(6) == 64; }
  }

  /** The first `n` bytes of a word, lowest first. */
  function ToBytes(w: Word, n: nat): (s: seq<byte>)
    requires 8 * n <= |w|
    ensures |s| == n
  {
    if n == 0 then [] else [LowByte(w)] + ToBytes(w[8..], n - 1)
  }

  function FromBytes(s: seq<byte>): (w: Word)
    ensures |w| == 8 * |s|
  {
    if s == [] then [] else OfValue(s[0], 8) + FromBytes(s[1..])
  }

  lemma {:induction false} BitmapRoundTrip(w: Word, n: nat)
    requires 8 * n <= |w|
    ensures FromBytes(ToBytes(w, n)) == w[..8 * n]
  {
    if n != 0 {
      OfValueInverse(w[..8]);
      BitmapRoundTrip(w[8..], n - 1);
      assert w[..8 * n] == w[..8] + w[8..][..8 * (n - 1)];
    }
  }

  /** Bit `i` of a bitmap as the C code tests it. */
  predicate BitSet(bitmap: seq<byte>, i: nat)
    requires i / 8 < |bitmap|
  {
    OfValue(bitmap[i / 8], 8)[i % 8]
  }

  lemma {:induction false} BitSetIsBit(bitmap: seq<byte>, i: nat)
    requires i < 8 * |bitmap|
    ensures BitSet(bitmap, i) == FromBytes(bitmap)[i]
  {
    if i >= 8 {
      assert bitmap[1..][(i - 8) / 8] == bitmap[i / 8];
      BitSetIsBit(bitmap[1..], i - 8);
    }
  }

  // ---- DISCRETE_SET ---------------------------------------------------------------------------

  /** A well-formed SET: the masks over the card's own 64 channels. */
  datatype Masks = Masks(apply: Word64, values: Word64)

  /** The decode of handle_discrete_set; None is the payload error. */
  function DecodeSet(payload: seq<byte>): Option<Masks> {
    if |payload| < SET_HEADER then None
    else DecodeRange(FromLe32(payload[..4]), FromLe16(payload[4..6]), payload[SET_HEADER..])
  }

  function DecodeRange(base: nat, count: nat, bitmaps: seq<byte>): Option<Masks> {
    var n := BitmapBytes(count);
    if count == 0 || |bitmaps| != 2 * n || base + count > 0x1_0000_0000 then None
    else
      var apply, values := Window(FromBytes(bitmaps[..n]), base, count), Window(FromBytes(bitmaps[n..]), base, count);
      Some(Masks(apply, And(apply, values)))
  }

  /** Bit i of the bitmap moved to channel base + i, channels from 64 on dropped. */
  function Window(bits: Word, base: nat, count: nat): Word64
    requires count <= |bits|
  {
    seq(64, c requires 0 <= c < 64 => base <= c < base + count && bits[c - base])
  }

  /** The wire form of a SET, as a gateway builds it. */
  function EncodeSet(base: u32, count: u16, apply: Word, values: Word): seq<byte>
    requires |apply| == |values| == 8 * BitmapBytes(count)
  {
    Le32(base) + Le16(count) + ToBytes(apply, BitmapBytes(count)) + ToBytes(values, BitmapBytes(count))
  }

  /** Round trip: bit i of the gateway's bitmaps arrives at channel base + i and nowhere else. */
  lemma SetRoundTrip(base: u32, count: u16, apply: Word, values: Word, c: nat)
    requires 0 < count && base + count <= 0x1_0000_0000 && c < 64
    requires |apply| == |values| == 8 * BitmapBytes(count)
    ensures var r := DecodeSet(EncodeSet(base, count, apply, values));
            && r.Some?
            && r.value.apply[c] == (base <= c < base + count && apply[c - base])
            && r.value.values[c] == (base <= c < base + count && apply[c - base] && values[c - base])
  {
    SetDecoded(base, count, apply, values);
    WindowBit(base, count, apply, values, c);
  }

  lemma WindowBit(base: nat, count: nat, apply: Word, values: Word, c: nat)
    requires |apply| == |values| >= count && c < 64
    ensures Window(apply, base, count)[c] == (base <= c < base + count && apply[c - base])
    ensures And(Window(apply, base, count), Window(values, base, count))[c]
         == (base <= c < base + count && apply[c - base] && values[c - base])
  {
  }

  lemma SetDecoded(base: u32, count: u16, apply: Word, values: Word)
    requires 0 < count && base + count <= 0x1_0000_0000
    requires |apply| == |values| == 8 * BitmapBytes(count)
    ensures DecodeSet(EncodeSet(base, count, apply, values))
         == Some(Masks(Window(apply, base, count), And(Window(apply, base, count), Window(values, base, count))))
  {
    var n := BitmapBytes(count);
    SetFields(base, count, ToBytes(apply, n), ToBytes(values, n));
    WholeBitmap(apply, n);
    WholeBitmap(values, n);
  }

  lemma WholeBitmap(w: Word, n: nat)
    requires |w| == 8 * n
    ensures FromBytes(ToBytes(w, n)) == w
  {
    BitmapRoundTrip(w, n);
    assert w[..8 * n] == w;
  }

  lemma SetFields(base: u32, count: u16, a: seq<byte>, b: seq<byte>)
    requires |a| == |b|
    ensures var p := Le32(base) + Le16(count) + a + b;
            && |p| >= SET_HEADER && FromLe32(p[..4]) == base && FromLe16(p[4..6]) == count
            && p[SET_HEADER..][..|a|] == a && p[SET_HEADER..][|a|..] == b && |p[SET_HEADER..]| == 2 * |a|
  {
    var p := Le32(base) + Le16(count) + a + b;
    Le32RoundTrip(base);
    Le16RoundTrip(count);
    assert p[..4] == Le32(base) && p[4..6] == Le16(count) && p[SET_HEADER..] == a + b;
  }

  // ---- the glue -----------------------------------------------------------------------------------

  /** discrete_backend_state_t */
  datatype Hw = Hw(relays: Word64, inputs: Word64, inputValid: Word64, link: bool)
  type Count = n: nat | n <= MAX_CHANNELS
  /** The process-image widths frozen at boot. */
  datatype Config = Config(inputs: Count, outputs: Count) {
    function Width(): Count {
      if inputs > outputs then inputs else outputs
    }
  }

  datatype Glue = Glue(enabled: bool, disabling: bool, disableStarted: u32, reportMs: u16, desired: Word64,
                       hw: Hw, hwSeen: bool, seqNo: byte, pending: bool, lastStateMs: u32)

  const NO_HW := Hw(Zero(64), Zero(64), Zero(64), false)
  const BOOT := Glue(false, false, 0, DEFAULT_REPORT_MS, Zero(64), NO_HW, false, 0, false, 0)

  datatype Call = SetEnabled(enabled: bool) | SetOutputs(mask: Word64, values: Word64)

  /** refresh_hardware: what get_state answered, None when it failed. */
  function Refresh(g: Glue, answer: Option<Hw>): Glue {
    var raw := if answer.Some? then answer.value else NO_HW;
    var next := if raw.link then raw else raw.(inputValid := Zero(64));
    if !g.hwSeen || next != g.hw then g.(hw := next, hwSeen := true, pending := g.pending || g.enabled) else g
  }

  /** The STATE payload for a snapshot. */
  function StatePayload(c: Config, hw: Hw, seqNo: byte): (s: seq<byte>)
    ensures |s| == STATE_HEADER + 3 * BitmapBytes(c.Width())
  {
    var n := BitmapBytes(c.Width());
    [0, 0, 0, 0] + Le16(c.Width()) + [if hw.link then 1 else 0, seqNo]
    + ToBytes(hw.relays, n) + ToBytes(hw.inputs, n) + ToBytes(hw.inputValid, n)
  }

  /** emit_state: the new glue and the datagram that went out, if any. */
  function Emit(g: Glue, c: Config, now: u32, udpOk: bool): (Glue, seq<seq<byte>>) {
    if c.Width() == 0 then (g.(pending := false, lastStateMs := now), [])
    else if !udpOk then (g, [])
    else (g.(seqNo := After(g.seqNo), pending := false, lastStateMs := now),
          [StatePayload(c, g.hw, g.seqNo)])
  }

  function Setup(g: Glue, enable: byte, reportMs: u16, answer: Option<Hw>, now: u32): (Glue, seq<Call>) {
    if enable != 0 then
      var g1 := g.(desired := Zero(64), enabled := true, disabling := false,
                   reportMs := if reportMs != 0 then reportMs else DEFAULT_REPORT_MS);
      (Refresh(g1, answer).(pending := true), [SetEnabled(true)])
    else
      var g1 := g.(desired := Zero(64));
      (if g1.enabled then g1.(disabling := true, disableStarted := now, pending := true) else g1.(disabling := false),
       [SetEnabled(false)])
  }

  function ValidOutputs(c: Config): Word64 {
    if c.outputs < 64 then (if c.outputs == 0 then Zero(64) else Low(64, c.outputs)) else Not(Zero(64))
  }

  function Set(g: Glue, c: Config, mask: Word64, values: Word64, answer: Option<Hw>): (Glue, seq<Call>) {
    var m, v := And(mask, ValidOutputs(c)), And(values, ValidOutputs(c));
    if !g.enabled || g.disabling || m == Zero(64) then (g, [])
    else
      var g1 := Refresh(g, answer);
      if !g1.hw.link then (g1, [])
      else (g1.(desired := Or(And(g1.desired, Not(m)), And(v, m))), [SetOutputs(m, v)])
  }

  function Reset(g: Glue): (Glue, seq<Call>) {
    (g.(enabled := false, disabling := false, desired := Zero(64), reportMs := DEFAULT_REPORT_MS, pending := false),
     [SetEnabled(false)])
  }

  /** A disable is over: all relays read off on a live link, or two seconds have passed. */
  predicate DisableOver(g: Glue, now: u32) {
    (g.hw.link && g.hw.relays == Zero(64)) || Sub32(now, g.disableStarted) >= DISABLE_TIMEOUT_MS
  }

  function Loop(g: Glue, c: Config, answer: Option<Hw>, now: u32, udpOk: bool): (Glue, seq<seq<byte>>) {
    if !g.enabled then (g, [])
    else
      var g1 := Refresh(g, answer);
      if g1.disabling && DisableOver(g1, now) then
        var (g2, out) := Emit(g1.(pending := true), c, now, udpOk);
        (g2.(enabled := false, disabling := false), out)
      else if g1.pending || Sub32(now, g1.lastStateMs) >= g1.reportMs then Emit(g1, c, now, udpOk)
      else (g1, [])
  }

  // ---- telemetry over every run -----------------------------------------------------------------------

  datatype Op =
    | Setting(enable: byte, reportMs: u16, answer: Option<Hw>, now: u32)
    | Write(mask: Word64, values: Word64, answer: Option<Hw>)
    | Looping(answer: Option<Hw>, now: u32, udpOk: bool)
    | SessionReset

  function Step(g: Glue, c: Config, op: Op): (Glue, seq<seq<byte>>) {
    match op
    case Setting(enable, reportMs, answer, now) => (Setup(g, enable, reportMs, answer, now).0, [])
    case Write(mask, values, answer) => (Set(g, c, mask, values, answer).0, [])
    case Looping(answer, now, udpOk) => Loop(g, c, answer, now, udpOk)
    case SessionReset => (Reset(g).0, [])
  }

  /** The glue after a run and every STATE it sent. */
  function Run(g: Glue, c: Config, ops: seq<Op>): (Glue, seq<seq<byte>>) {
    if ops == [] then (g, [])
    else
      var (g1, sent) := Run(g, c, ops[..|ops| - 1]);
      var (g2, more) := Step(g1, c, ops[|ops| - 1]);
      (g2, sent + more)
  }

  /** What a gateway reads out of a STATE payload. */
  datatype View = View(width: nat, link: bool, seqNo: byte, relays: Word, inputs: Word, inputValid: Word)

  function DecodeState(p: seq<byte>): Option<View> {
    if |p| < STATE_HEADER then None
    else
      var width := FromLe16(p[4..6]);
      var n := BitmapBytes(width);
      if p[..4] != [0, 0, 0, 0] || width == 0 || width > MAX_CHANNELS || |p| != STATE_HEADER + 3 * n then None
      else Some(View(width, p[6] != 0, p[7], FromBytes(p[STATE_HEADER..STATE_HEADER + n]),
                     FromBytes(p[STATE_HEADER + n..STATE_HEADER + 2 * n]), FromBytes(p[STATE_HEADER + 2 * n..])))
  }

  /** The snapshot as reported: maps cut to the reported width in whole bytes. */
  function Reported(c: Config, hw: Hw, seqNo: byte): View {
    var bits := 8 * BitmapBytes(c.Width());
    View(c.Width(), hw.link, seqNo, hw.relays[..bits], hw.inputs[..bits], hw.inputValid[..bits])
  }

  lemma StateRoundTrip(c: Config, hw: Hw, seqNo: byte)
    requires c.Width() > 0
    ensures DecodeState(StatePayload(c, hw, seqNo)) == Some(Reported(c, hw, seqNo))
  {
    var n := BitmapBytes(c.Width());
    StateFields(Le16(c.Width()), if hw.link then 1 else 0, seqNo, ToBytes(hw.relays, n), ToBytes(hw.inputs, n),
                ToBytes(hw.inputValid, n));
    Le16RoundTrip(c.Width());
    BitmapRoundTrip(hw.relays, n);
    BitmapRoundTrip(hw.inputs, n);
    BitmapRoundTrip(hw.inputValid, n);
  }

  lemma StateFields(w: seq<byte>, link: byte, seqNo: byte, a: seq<byte>, b: seq<byte>, c: seq<byte>)
    requires |w| == 2 && |a| == |b| == |c|
    ensures var p := [0, 0, 0, 0] + w + [link, seqNo] + a + b + c;
            && |p| == STATE_HEADER + 3 * |a| && p[..4] == [0, 0, 0, 0] && p[4..6] == w && p[6] == link && p[7] == seqNo
            && p[STATE_HEADER..STATE_HEADER + |a|] == a
            && p[STATE_HEADER + |a|..STATE_HEADER + 2 * |a|] == b
            && p[STATE_HEADER + 2 * |a|..] == c
  {
  }

  /** The next STATE gets the number after the last one, and while telemetry is on and
      nothing is pending the last STATE sent shows the current snapshot. */
  predicate TelemetryInv(g: Glue, c: Config, sent: seq<seq<byte>>) {
    && (g.enabled && c.Width() > 0 && !g.pending ==>
          sent != [] && sent[|sent| - 1] == StatePayload(c, g.hw, Before(g.seqNo)))
    && (sent != [] ==> |sent[|sent| - 1]| >= STATE_HEADER && sent[|sent| - 1][7] == Before(g.seqNo))
  }

  lemma PayloadSeq(c: Config, hw: Hw, seqNo: byte)
    ensures StatePayload(c, hw, seqNo)[7] == seqNo
  {
  }

  /** `seq++` on an 8-bit counter. */
  function After(n: byte): byte {
    if n == 255 then 0 else n + 1
  }

  function Before(n: byte): byte {
    if n == 0 then 255 else n - 1
  }

  /** An emitted STATE shows the snapshot, and clears the pending mark. */
  lemma EmitTelemetry(g: Glue, c: Config, now: u32, udpOk: bool, sent: seq<seq<byte>>)
    requires sent != [] ==> |sent[|sent| - 1]| >= STATE_HEADER && sent[|sent| - 1][7] == Before(g.seqNo)
    requires c.Width() > 0 && !udpOk ==> TelemetryInv(g, c, sent)
    ensures var (g', more) := Emit(g, c, now, udpOk);
            && TelemetryInv(g', c, sent + more)
            && |more| <= 1 && (more != [] ==> |more[0]| >= STATE_HEADER && more[0][7] == g.seqNo)
            && g'.seqNo == (if more == [] then g.seqNo else After(g.seqNo))
  {
    PayloadSeq(c, g.hw, g.seqNo);
    assert sent + [] == sent;
  }

  lemma LoopTelemetry(g: Glue, c: Config, answer: Option<Hw>, now: u32, udpOk: bool, sent: seq<seq<byte>>)
    requires TelemetryInv(g, c, sent)
    ensures var (g', more) := Loop(g, c, answer, now, udpOk);
            && TelemetryInv(g', c, sent + more)
            && |more| <= 1 && (more != [] ==> |more[0]| >= STATE_HEADER && more[0][7] == g.seqNo)
            && g'.seqNo == (if more == [] then g.seqNo else After(g.seqNo))
  {
    var g1 := Refresh(g, answer);
    assert sent + [] == sent;
    if g.enabled {
      if g1.disabling && DisableOver(g1, now) {
        EmitTelemetry(g1.(pending := true), c, now, udpOk, sent);
      } else if g1.pending || Sub32(now, g1.lastStateMs) >= g1.reportMs {
        EmitTelemetry(g1, c, now, udpOk, sent);
      }
    }
  }

  lemma StepTelemetry(g: Glue, c: Config, op: Op, sent: seq<seq<byte>>)
    requires TelemetryInv(g, c, sent)
    ensures var (g', more) := Step(g, c, op);
            && TelemetryInv(g', c, sent + more)
            && |more| <= 1 && (more != [] ==> |more[0]| >= STATE_HEADER && more[0][7] == g.seqNo)
            && g'.seqNo == (if more == [] then g.seqNo else After(g.seqNo))
  {
    assert sent + [] == sent;
    if op.Looping? {
      LoopTelemetry(g, c, op.answer, op.now, op.udpOk, sent);
    }
  }

  /** The number of the n-th STATE since boot. */
  function Number(n: nat): byte {
    if n == 0 then 0 else After(Number(n - 1))
  }

  lemma {:induction false} NumberWraps(n: nat)
    ensures Number(n) as int == n % 256
  {
    if n != 0 {
      NumberWraps(n - 1);
    }
  }

  predicate Numbered(sent: seq<seq<byte>>) {
    forall i :: 0 <= i < |sent| ==> |sent[i]| >= STATE_HEADER && sent[i][7] == Number(i)
  }

  lemma NumberedAppend(sent: seq<seq<byte>>, more: seq<seq<byte>>)
    requires Numbered(sent) && |more| <= 1
    requires more != [] ==> |more[0]| >= STATE_HEADER && more[0][7] == Number(|sent|)
    ensures Numbered(sent + more)
  {
    if more == [] {
      assert sent + more == sent;
    } else {
      var all := sent + more;
      forall i | 0 <= i < |all| ensures |all[i]| >= STATE_HEADER && all[i][7] == Number(i) {
        if i == |sent| {
          assert all[i] == more[0];
        } else {
          assert all[i] == sent[i];
        }
      }
    }
  }

  /** What every operation keeps of the glue and the STATEs sent. */
  predicate Consistent(g: Glue, c: Config, sent: seq<seq<byte>>) {
    TelemetryInv(g, c, sent) && g.seqNo == Number(|sent|) && Numbered(sent)
  }

  lemma StepConsistent(g: Glue, c: Config, op: Op, sent: seq<seq<byte>>)
    requires Consistent(g, c, sent)
    ensures Consistent(Step(g, c, op).0, c, sent + Step(g, c, op).1)
  {
    StepTelemetry(g, c, op, sent);
    NumberedAppend(sent, Step(g, c, op).1);
  }

  lemma {:induction false} RunTelemetry(c: Config, ops: seq<Op>)
    ensures Consistent(Run(BOOT, c, ops).0, c, Run(BOOT, c, ops).1)
  {
    if ops != [] {
      RunTelemetry(c, ops[..|ops| - 1]);
      var (g1, sent1) := Run(BOOT, c, ops[..|ops| - 1]);
      StepConsistent(g1, c, ops[|ops| - 1], sent1);
    }
  }

  /** While telemetry is on, the width is non-zero and nothing is pending, the last STATE
      sent decodes to the current hardware snapshot. */
  predicate Shown(g: Glue, c: Config, sent: seq<seq<byte>>) {
    g.enabled && c.Width() > 0 && !g.pending ==>
      sent != [] && DecodeState(sent[|sent| - 1]) == Some(Reported(c, g.hw, Number(|sent| - 1)))
  }

  lemma ConsistentShown(g: Glue, c: Config, sent: seq<seq<byte>>)
    requires Consistent(g, c, sent)
    ensures Shown(g, c, sent)
  {
    if g.enabled && c.Width() > 0 && !g.pending {
      StateRoundTrip(c, g.hw, Before(g.seqNo));
      assert Number(|sent|) == After(Number(|sent| - 1));
    }
  }

  /** Telemetry completeness, over every run from boot: the gateway always has the current
      snapshot unless one is pending; and STATEs are numbered without a gap, modulo 256
      (NumberWraps). */
  lemma TelemetryComplete(c: Config, ops: seq<Op>)
    ensures Numbered(Run(BOOT, c, ops).1) && Shown(Run(BOOT, c, ops).0, c, Run(BOOT, c, ops).1)
  {
    RunTelemetry(c, ops);
    ConsistentShown(Run(BOOT, c, ops).0, c, Run(BOOT, c, ops).1);
  }

  /** A snapshot as the glue keeps it: inputs are invalid without a link. */
  function Snapshot(answer: Option<Hw>): Hw {
    match answer
    case None => NO_HW
    case Some(hw) => if hw.link then hw else hw.(inputValid := Zero(64))
  }

  lemma RefreshIsSnapshot(g: Glue, answer: Option<Hw>)
    ensures Refresh(g, answer).hw == Snapshot(answer)
  {
  }

  /** Freshness, after any run: a loop call with UDP working leaves nothing pending, so while the
      plane is still on the gateway has the backend's state of that very call, bit for bit. */
  lemma LoopMakesFresh(c: Config, ops: seq<Op>, answer: Option<Hw>, now: u32)
    ensures var (g, sent) := Run(BOOT, c, ops + [Looping(answer, now, true)]);
            g.enabled && c.Width() > 0 ==>
              && !g.pending && sent != []
              && DecodeState(sent[|sent| - 1]) == Some(Reported(c, Snapshot(answer), Number(|sent| - 1)))
  {
    var last := Looping(answer, now, true);
    var all := ops + [last];
    assert all[..|all| - 1] == ops && all[|all| - 1] == last;
    RefreshIsSnapshot(Run(BOOT, c, ops).0, answer);
    LoopLeavesNothing(Run(BOOT, c, ops).0, c, answer, now);
    TelemetryComplete(c, all);
  }

  lemma LoopLeavesNothing(g: Glue, c: Config, answer: Option<Hw>, now: u32)
    ensures var g' := Loop(g, c, answer, now, true).0;
            g'.enabled ==> !g'.pending && g'.hw == Refresh(g, answer).hw
  {
  }

  // ---- the end of a disable -------------------------------------------------------------------------------

  /** One call of the loop during a disable. */
  datatype LoopCall = LoopCall(answer: Option<Hw>, now: u32, udpOk: bool)

  function Loops(g: Glue, c: Config, calls: seq<LoopCall>): Glue {
    if calls == [] then g
    else
      var g1, last := Loops(g, c, calls[..|calls| - 1]), calls[|calls| - 1];
      Loop(g1, c, last.answer, last.now, last.udpOk).0
  }

  /** The call sees relays off on a live link, or comes 2000 ms or more after the disable, on a
      clock that counts modulo 2^32. */
  predicate Ends(call: LoopCall, started: u32) {
    (call.answer.Some? && call.answer.value.link && call.answer.value.relays == Zero(64))
    || Elapsed(call.now, started) >= 2000
  }

  lemma RefreshShows(g: Glue, answer: Option<Hw>)
    ensures var g1 := Refresh(g, answer);
            && (g1.hw.link && g1.hw.relays == Zero(64)
                <==> answer.Some? && answer.value.link && answer.value.relays == Zero(64))
            && g1.enabled == g.enabled && g1.disabling == g.disabling && g1.disableStarted == g.disableStarted
  {
  }

  /** After SETUP(enable = 0) telemetry goes on until, and stops at, the first loop call that
      sees all relays off on a live link or comes 2000 ms or more later, whether or not UDP
      works, and also when the tick counter wraps. */
  lemma {:induction false} DisableEndsAtFirst(g: Glue, c: Config, calls: seq<LoopCall>)
    requires g.enabled && g.disabling
    ensures var g' := Loops(g, c, calls);
            g'.enabled <==> forall i :: 0 <= i < |calls| ==> !Ends(calls[i], g.disableStarted)
    ensures var g' := Loops(g, c, calls);
            g'.enabled ==> g'.disabling && g'.disableStarted == g.disableStarted
  {
    if calls != [] {
      var n := |calls| - 1;
      DisableEndsAtFirst(g, c, calls[..n]);
      var g1 := Loops(g, c, calls[..n]);
      if g1.enabled {
        LoopEnds(g1, c, calls[n]);
      }
      assert calls == calls[..n] + [calls[n]];
      assert forall i :: 0 <= i < n ==> calls[..n][i] == calls[i];
    }
  }

  lemma LoopEnds(g: Glue, c: Config, call: LoopCall)
    requires g.enabled && g.disabling
    ensures var g' := Loop(g, c, call.answer, call.now, call.udpOk).0;
            && (g'.enabled <==> !Ends(call, g.disableStarted))
            && (g'.enabled ==> g'.disabling && g'.disableStarted == g.disableStarted)
  {
    RefreshShows(g, call.answer);
    TicksWrap(call.now, g.disableStarted);
  }

  /** Writes that arrive during a disable, while off, or while the link is down reach no one. */
  lemma LateWritesDropped(g: Glue, c: Config, mask: Word64, values: Word64, answer: Option<Hw>)
    requires !g.enabled || g.disabling || answer.None? || !answer.value.link
    ensures Set(g, c, mask, values, answer).1 == [] && Set(g, c, mask, values, answer).0.desired == g.desired
  {
  }

  // ---- from a SET on the wire to a coil -----------------------------------------------------------------------

  /** The shared intent after the backend calls of the glue. */
  function Applied(s: Rs485.Shared, calls: seq<Call>): Rs485.Shared {
    if calls == [] then s
    else
      var s1 := Applied(s, calls[..|calls| - 1]);
      match calls[|calls| - 1]
      case SetEnabled(enabled) => Rs485.Enable(s1, enabled)
      case SetOutputs(mask, values) => Rs485.SetIntent(s1, mask, values)
  }

  /** The snapshot get_state gives for the worker's published state. */
  function HwOf(s: Rs485.State): Hw {
    Hw(s.relays, s.inputs, if s.inputValid then Zero(64)[0 := true] else Zero(64), s.link)
  }

  /** End to end: an accepted SET changes the target of exactly the addressed channels below
      W + M, each on exactly one coil: Waveshare coil c for c < W, else M31 coil c - W. */
  lemma SetReachesOneCoil(g: Glue, s: Rs485.Shared, w: Rs485.Width, m: Rs485.Width, inputs: Count, payload: seq<byte>,
                          c: nat)
    requires DecodeSet(payload).Some? && c < 64
    requires g.enabled && !g.disabling && s.enabled && s.state.link
    ensures var masks := DecodeSet(payload).value;
            var calls := Set(g, Config(inputs, w + m), masks.apply, masks.values, Some(HwOf(s.state))).1;
            var t := Rs485.Target(Applied(s, calls), w + m);
            var wanted := if masks.apply[c] then masks.values[c] else s.desired[c];
            && (c < w ==> Rs485.DeviceTarget(t, 0, w)[c] == wanted)
            && (w <= c < w + m ==> Rs485.DeviceTarget(t, w, m)[c - w] == wanted)
            && (c >= w + m ==> !t[c])
  {
    var masks := DecodeSet(payload).value;
    var v := ValidOutputs(Config(inputs, w + m));
    var mask, values := And(masks.apply, v), And(masks.values, v);
    assert v[c] == (c < w + m);
    assert mask[c] == (masks.apply[c] && v[c]);
    if mask == Zero(64) {
      TargetBits(s, w, m, c);
    } else {
      AppliedOne(s, mask, values);
      TargetBits(Rs485.SetIntent(s, mask, values), w, m, c);
    }
  }

  predicate ShowsCoils(relays: Word, w: Rs485.Device, m: Rs485.Device) {
    forall c :: 0 <= c < |relays| ==> relays[c] == Rs485Convergence.CoilAt(w, m, c)
  }

  /** And back: the relay map a gateway decodes from a STATE shows, bit for bit, the coils of the
      two modules. */
  lemma StateShowsCoils(worker: Rs485.Worker, inputs: Count, seqNo: byte)
    requires Rs485.DeviceOk(worker.waveshare) && Rs485.DeviceOk(worker.m31)
    requires worker.waveshare.outputs + worker.m31.outputs > 0
    ensures var config := Config(inputs, worker.waveshare.outputs + worker.m31.outputs);
            var view := DecodeState(StatePayload(config, HwOf(Rs485.Image(worker)), seqNo));
            && view.Some? && |view.value.relays| == 8 * BitmapBytes(config.Width())
            && ShowsCoils(view.value.relays, worker.waveshare, worker.m31)
  {
    StateRoundTrip(Config(inputs, worker.waveshare.outputs + worker.m31.outputs), HwOf(Rs485.Image(worker)), seqNo);
    ImageShowsCoils(worker);
  }

  /** The input map shows the inputs of the M31 module, and the validity map one bit, the lowest:
      whether they are to be believed. */
  lemma StateShowsInputs(worker: Rs485.Worker, config: Config, seqNo: byte)
    requires config.Width() > 0
    ensures var view := DecodeState(StatePayload(config, HwOf(Rs485.Image(worker)), seqNo));
            && view.Some? && |view.value.inputs| == |view.value.inputValid| == 8 * BitmapBytes(config.Width())
            && view.value.link == Rs485.Image(worker).link
            && forall i :: 0 <= i < |view.value.inputs| ==>
                 && view.value.inputs[i] == (i < 32 && worker.inputState[i])
                 && view.value.inputValid[i] == (i == 0 && worker.inputs > 0 && worker.m31.online && worker.inputOk)
  {
    StateRoundTrip(config, HwOf(Rs485.Image(worker)), seqNo);
  }

  lemma ImageShowsCoils(worker: Rs485.Worker)
    requires Rs485.DeviceOk(worker.waveshare) && Rs485.DeviceOk(worker.m31)
    ensures ShowsCoils(Rs485.Image(worker).relays, worker.waveshare, worker.m31)
  {
    var w, m := worker.waveshare, worker.m31;
    forall c: nat | c < 64 ensures Rs485.Image(worker).relays[c] == Rs485Convergence.CoilAt(w, m, c) {
      Rs485Convergence.MergedBits(w.relays, m.relays, w.outputs, m.outputs, c);
    }
  }

  lemma AppliedOne(s: Rs485.Shared, mask: Word64, values: Word64)
    ensures Applied(s, [SetOutputs(mask, values)]) == Rs485.SetIntent(s, mask, values)
  {
    assert Applied(s, [SetOutputs(mask, values)][..0]) == s;
  }

  lemma TargetBits(s: Rs485.Shared, w: Rs485.Width, m: Rs485.Width, c: nat)
    requires c < 64 && s.enabled
    ensures var t := Rs485.Target(s, w + m);
            && (c < w ==> Rs485.DeviceTarget(t, 0, w)[c] == s.desired[c])
            && (w <= c < w + m ==> Rs485.DeviceTarget(t, w, m)[c - w] == s.desired[c])
            && (c >= w + m ==> !t[c])
  {
  }
}
