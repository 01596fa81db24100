/** components/lccore/discrete_glue.c as written, over the RS-485 backend, and the SET decode
    loop of components/lccore/comm_core.c. Each method does what the function of the same
    name in Discrete says. */
module DiscreteGlue {
  import opened Bytes
  import opened Options
  import opened Words
  import opened Discrete
  import Rs485
  import Rs485Task

  /** `UINT64_C(1) << channel` */
  function Bit(channel: nat): Word64
    requires channel < 64
  {
    Zero(64)[channel := true]
  }

  /** The decode loop of handle_discrete_set. */
  method DecodeMasks(payload: seq<byte>) returns (r: Option<Masks>)
    ensures r == DecodeSet(payload)
  {
    if |payload| < SET_HEADER {
      return None;
    }
    var base, count := FromLe32(payload[..4]), FromLe16(payload[4..6]);
    var n := BitmapBytes(count);
    if count == 0 || |payload| != SET_HEADER + 2 * n || base + count > 0x1_0000_0000 {
      return None;
    }
    var rest := payload[SET_HEADER..];
    var apply, values := DecodeBits(rest[..n], rest[n..], base, count);
    r := Some(Masks(apply, values));
    assert values == And(Window(FromBytes(rest[..n]), base, count), Window(FromBytes(rest[n..]), base, count));
  }

  method DecodeBits(apply: seq<byte>, values: seq<byte>, base: nat, count: nat)
    returns (localApply: Word64, localValues: Word64)
    requires count <= 8 * |apply| && |apply| == |values|
    ensures localApply == Window(FromBytes(apply), base, count)
    ensures localValues == And(localApply, Window(FromBytes(values), base, count))
  {
    localApply, localValues := Zero(64), Zero(64);
    ghost var a, v := FromBytes(apply), FromBytes(values);
    assert localApply == Window(a, base, 0) && localValues == And(localApply, Window(v, base, 0));
    for i := 0 to count
      invariant localApply == Window(a, base, i) && localValues == And(localApply, Window(v, base, i))
    {
      var channel := base + i;
      BitSetIsBit(apply, i);
      BitSetIsBit(values, i);
      WindowGrows(a, v, base, i);
      if channel < 64 && BitSet(apply, i) {
        localApply := Or(localApply, Bit(channel));
        if BitSet(values, i) {
          localValues := Or(localValues, Bit(channel));
        }
      }
    }
  }

  /** One more bit: only its own channel changes, if there is one. */
  lemma WindowGrows(a: Word, v: Word, base: nat, i: nat)
    requires i < |a| && |a| == |v|
    ensures var a0, v0 := Window(a, base, i), And(Window(a, base, i), Window(v, base, i));
            var a1, v1 := Window(a, base, i + 1), And(Window(a, base, i + 1), Window(v, base, i + 1));
            if base + i < 64 && a[i] then
              a1 == Or(a0, Bit(base + i)) && v1 == (if v[i] then Or(v0, Bit(base + i)) else v0)
            else a1 == a0 && v1 == v0
  {
    forall c | 0 <= c < 64
      ensures Window(a, base, i + 1)[c] == (Window(a, base, i)[c] || (c == base + i && a[i]))
      ensures Window(v, base, i + 1)[c] == (Window(v, base, i)[c] || (c == base + i && v[i]))
      ensures c == base + i ==> !Window(a, base, i)[c] && !Window(v, base, i)[c]
    {
    }
  }

  /** One more byte of a bitmap. */
  lemma MapByte(bits: Word64, n: nat, k: nat, done: seq<byte>, b: byte)
    requires k < n <= 8 && b == LowByte(Shr(bits, 8 * k))
    ensures done + ToBytes(bits[8 * k..], n - k) == (done + [b]) + ToBytes(bits[8 * (k + 1)..], n - (k + 1))
  {
    if k > 0 {
      assert Shr(bits, 8 * k)[..8] == bits[8 * k..][..8];
    } else {
      assert Shr(bits, 0) == bits;
    }
    assert bits[8 * k..][8..] == bits[8 * (k + 1)..];
  }

  class DiscretePlane {
    const config: Config
    const bus: Rs485Task.Bus
    var enabled: bool
    var disabling: bool
    var disableStarted: u32
    var reportMs: u16
    var desired: Word64
    var hw: Hw
    var hwSeen: bool
    var seqNo: byte
    var pending: bool
    var lastStateMs: u32

    function View(): Glue
      reads this
    {
      Glue(enabled, disabling, disableStarted, reportMs, desired, hw, hwSeen, seqNo, pending, lastStateMs)
    }

    /** What get_state answers. */
    function Answer(): Option<Hw>
      reads bus
    {
      Some(HwOf(bus.state))
    }

    constructor (config: Config, bus: Rs485Task.Bus)
      ensures View() == BOOT && this.config == config && this.bus == bus
    {
      this.config, this.bus := config, bus;
      enabled, disabling, disableStarted, reportMs := false, false, 0, DEFAULT_REPORT_MS;
      desired, hw, hwSeen, seqNo, pending, lastStateMs := Zero(64), NO_HW, false, 0, false, 0;
    }

    /** refresh_hardware */
    method RefreshHardware()
      modifies this`hw, this`hwSeen, this`pending
      ensures View() == Refresh(old(View()), Answer())
    {
      var next := HwOf(bus.state);
      if !next.link {
        next := next.(inputValid := Zero(64));
      }
      if !hwSeen || next.relays != hw.relays || next.inputs != hw.inputs
         || next.inputValid != hw.inputValid || next.link != hw.link {
        hw := next;
        hwSeen := true;
        if enabled {
          pending := true;
        }
      }
    }

    /** One of the three bitmaps of a STATE payload. */
    method FillMap(payload: array<byte>, at: nat, bits: Word64, n: nat)
      requires n <= 8 && at + n <= payload.Length
      modifies payload
      ensures payload[..at + n] == old(payload[..at]) + ToBytes(bits, n)
      ensures payload[at + n..] == old(payload[at + n..])
    {
      ghost var head, tail, done: seq<byte> := payload[..at], payload[at + n..], [];
      for k := 0 to n
        invariant |done| == k && payload[..at + k] == head + done && payload[at + n..] == tail
        invariant done + ToBytes(bits[8 * k..], n - k) == ToBytes(bits, n)
      {
        var b := LowByte(Shr(bits, 8 * k));
        MapByte(bits, n, k, done, b);
        payload[at + k] := b;
        Associative(head, done, [b]);
        done := done + [b];
      }
    }

    /** The three bitmaps behind the header. */
    method FillMaps(payload: array<byte>, n: nat)
      requires n <= 8 && STATE_HEADER + 3 * n <= payload.Length
      modifies payload
      ensures payload[..STATE_HEADER + 3 * n]
           == old(payload[..STATE_HEADER]) + ToBytes(hw.relays, n) + ToBytes(hw.inputs, n) + ToBytes(hw.inputValid, n)
    {
      FillMap(payload, STATE_HEADER, hw.relays, n);
      FillMap(payload, STATE_HEADER + n, hw.inputs, n);
      FillMap(payload, STATE_HEADER + 2 * n, hw.inputValid, n);
    }

    /** The payload of emit_state. */
    method BuildState() returns (out: seq<byte>)
      ensures out == StatePayload(config, hw, seqNo)
    {
      var n := BitmapBytes(config.Width());
      var payload := new byte[STATE_HEADER + 24](_ => 0);
      var width := Le16(config.Width());
      payload[4], payload[5] := width[0], width[1];
      payload[6] := if hw.link then 1 else 0;
      payload[7] := seqNo;
      assert payload[..STATE_HEADER] == [0, 0, 0, 0] + width + [if hw.link then 1 else 0, seqNo];
      FillMaps(payload, n);
      out := payload[..STATE_HEADER + 3 * n];
    }

    /** emit_state; `out` holds the datagram if it went out. */
    method EmitState(now: u32, udpOk: bool) returns (out: seq<seq<byte>>)
      modifies this`seqNo, this`pending, this`lastStateMs
      ensures (View(), out) == Emit(old(View()), config, now, udpOk)
    {
      if config.Width() == 0 {
        pending := false;
        lastStateMs := now;
        return [];
      }
      var payload := BuildState();
      out := [];
      if udpOk {
        out := [payload];
        seqNo := if seqNo == 255 then 0 else seqNo + 1;
        pending := false;
        lastStateMs := now;
      }
    }

    /** discrete_glue_setup */
    method SetupPlane(enable: byte, reportMs: u16, now: u32)
      modifies this, bus
      ensures View() == Setup(old(View()), enable, reportMs, Answer(), now).0
      ensures bus.View() == Applied(old(bus.View()), Setup(old(View()), enable, reportMs, Answer(), now).1)
    {
      AppliedEnable(bus.View(), enable != 0);
      if enable != 0 {
        desired := Zero(64);
        enabled := true;
        disabling := false;
        this.reportMs := if reportMs != 0 then reportMs else DEFAULT_REPORT_MS;
        bus.SetEnabled(true);
        RefreshHardware();
        pending := true;
      } else {
        desired := Zero(64);
        bus.SetEnabled(false);
        if enabled {
          disabling := true;
          disableStarted := now;
          pending := true;
        } else {
          disabling := false;
        }
      }
    }

    /** discrete_glue_set */
    method SetOutputs(mask: Word64, values: Word64)
      modifies this, bus
      ensures View() == Set(old(View()), config, mask, values, old(Answer())).0
      ensures bus.View() == Applied(old(bus.View()), Set(old(View()), config, mask, values, old(Answer())).1)
    {
      if !enabled || disabling {
        return;
      }
      var m, v := And(mask, ValidOutputs(config)), And(values, ValidOutputs(config));
      if m == Zero(64) {
        return;
      }
      RefreshHardware();
      if !hw.link {
        return;
      }
      desired := Or(And(desired, Not(m)), And(v, m));
      AppliedOne(bus.View(), m, v);
      bus.SetOutputs(m, v);
    }

    /** discrete_glue_reset: the fail-safe edge of a session change. */
    method ResetPlane()
      modifies this, bus
      ensures View() == Reset(old(View())).0
      ensures bus.View() == Applied(old(bus.View()), Reset(old(View())).1)
    {
      AppliedEnable(bus.View(), false);
      bus.SetEnabled(false);
      enabled := false;
      disabling := false;
      desired := Zero(64);
      reportMs := DEFAULT_REPORT_MS;
      pending := false;
    }

    /** discrete_glue_loop */
    method LoopPlane(now: u32, udpOk: bool) returns (out: seq<seq<byte>>)
      modifies this
      ensures (View(), out) == Loop(old(View()), config, Answer(), now, udpOk)
    {
      out := [];
      if !enabled {
        return;
      }
      RefreshHardware();
      if disabling {
        var confirmed := hw.link && hw.relays == Zero(64);
        var timedOut := Sub32(now, disableStarted) >= DISABLE_TIMEOUT_MS;
        if confirmed || timedOut {
          pending := true;
          out := EmitState(now, udpOk);
          enabled := false;
          disabling := false;
          return;
        }
      }
      if pending {
        out := EmitState(now, udpOk);
        return;
      }
      if Sub32(now, lastStateMs) >= reportMs {
        out := EmitState(now, udpOk);
      }
    }
  }

  lemma AppliedEnable(s: Rs485.Shared, enabled: bool)
    ensures Applied(s, [SetEnabled(enabled)]) == Rs485.Enable(s, enabled)
  {
    assert Applied(s, [SetEnabled(enabled)][..0]) == s;
  }
}
