/** The channel commands as written: components/lccore/arinc_glue.c and the record handlers
    of components/lccore/comm_core.c, which update the two tables one record at a time. Each
    method does what the function of the same name in Channels says. */
module ChannelCode {
  import opened Bytes
  import opened Channels

  /** The record at `off` and the batch behind it. */
  lemma BatchFirst(k: Kind, t: Tables, payload: seq<byte>, off: nat, extra: Named)
    requires off + RecordSize(k) <= |payload|
    ensures var r, rest := payload[off..off + RecordSize(k)], payload[off + RecordSize(k)..];
            var (t1, status) := ApplyRecord(k, t, r);
            Channels.Batch(k, t, payload[off..], extra)
            == if status != OK then Outcome(t1, status, Extra(k, r)) else Channels.Batch(k, t1, rest, Extra(k, r))
  {
    var size := RecordSize(k);
    assert payload[off..][..size] == payload[off..off + size] && payload[off..][size..] == payload[off + size..];
  }

  class ChannelTables {
    var tx: Bank
    var rx: Bank
    var engine: TxBank

    function View(): Tables
      reads this
    {
      Tables(tx, rx, engine)
    }

    /** The two tables agree, channel by channel. */
    predicate Valid()
      reads this
    {
      Mirror(View())
    }

    constructor ()
      ensures Valid() && View() == RESET
    {
      tx, rx, engine := RESET.tx, RESET.rx, RESET.engine;
      ResetMirror();
    }

    method Reset()
      modifies this
      ensures Valid() && View() == RESET
    {
      tx, rx, engine := RESET.tx, RESET.rx, RESET.engine;
      ResetMirror();
    }

    // ---- atx_glue_* ----------------------------------------------------------------------

    method AddLabel(ch: nat, id: u16, timing: seq<byte>) returns (status: u32)
      requires Valid() && ch < NUM_CHANNELS
      modifies this`engine
      ensures Valid()
      ensures (engine, status) == (old(engine)[ch := EngineAddLabel(old(engine)[ch], id, timing).0],
                                   EngineAddLabel(old(engine)[ch], id, timing).1)
    {
      assert Same(tx[ch], engine[ch]);
      SameChannel(View(), ch, EngineAddLabel(engine[ch], id, timing).0);
      assert engine[ch := engine[ch]] == engine;
      if !engine[ch].setup {
        return TX_NOT_INIT;
      }
      if |engine[ch].labels| >= MAX_LABELS {
        return QUEUE_FULL;
      }
      engine := engine[ch := engine[ch].(labels := engine[ch].labels + [Label(id, timing, 0, false, false)],
                                         built := false)];
      return OK;
    }

    method Build(ch: nat) returns (status: u32)
      requires Valid() && ch < NUM_CHANNELS
      modifies this`engine
      ensures Valid()
      ensures (engine, status) == (old(engine)[ch := EngineBuild(old(engine)[ch]).0], EngineBuild(old(engine)[ch]).1)
    {
      assert Same(tx[ch], engine[ch]);
      SameChannel(View(), ch, EngineBuild(engine[ch]).0);
      assert engine[ch := engine[ch]] == engine;
      if !engine[ch].setup {
        return TX_NOT_INIT;
      }
      engine := engine[ch := engine[ch].(built := true)];
      return OK;
    }

    method SetLabel(ch: nat, packet: u32, sdiIsData: bool, enable: bool) returns (status: u32)
      requires Valid() && ch < NUM_CHANNELS
      modifies this`engine
      ensures Valid()
      ensures (engine, status) == (old(engine)[ch := EngineSetLabel(old(engine)[ch], packet, sdiIsData, enable).0],
                                   EngineSetLabel(old(engine)[ch], packet, sdiIsData, enable).1)
    {
      assert Same(tx[ch], engine[ch]);
      SameChannel(View(), ch, EngineSetLabel(engine[ch], packet, sdiIsData, enable).0);
      assert engine[ch := engine[ch]] == engine;
      if !engine[ch].setup {
        return TX_NOT_INIT;
      }
      var labels, i := engine[ch].labels, 0;
      while i < |labels|
        invariant i <= |labels|
        invariant forall j :: 0 <= j < i ==> !Addressed(labels[j], packet, sdiIsData)
      {
        if Addressed(labels[i], packet, sdiIsData) {
          var l := labels[i].(word := packet, txEnabled := enable, wordSet := true);
          engine := engine[ch := engine[ch].(labels := labels[i := l])];
          return OK;
        }
        i := i + 1;
      }
      return OK;
    }

    // ---- one record ----------------------------------------------------------------------

    method SetupRecord(r: seq<byte>) returns (status: u32)
      requires Valid() && |r| == RecordSize(ChannelSetup)
      modifies this
      ensures Valid() && (status != OK ==> View() == old(View()))
      ensures (View(), status) == ApplySetup(old(View()), r)
    {
      RecordKeepsMirror(ChannelSetup, View(), r);
      var ch, dir := r[0], r[1];
      if dir > DIR_RX {
        return DIR_UNKNOWN;
      }
      if ch >= NUM_CHANNELS {
        return if dir == DIR_TX then TX_OUT_OF_RANGE else RX_OUT_OF_RANGE;
      }
      if r[2] > SPEED_50KHZ {
        return SPEED_UNKNOWN;
      }
      if r[3] > MODE_RX_RAW {
        return INVALID_MODE;
      }
      var c := Channel(true, false, r[2], r[3], FromLe16(r[4..6]));
      if dir == DIR_TX {
        tx := tx[ch := c];
        engine := engine[ch := TxChannel(true, false, c.speed, c.mode, c.delay, false, [])];
      } else {
        rx := rx[ch := c];
      }
      return OK;
    }

    /** The engine's own check cannot fail: its channel is set up with the core's. */
    method EnableRecord(r: seq<byte>) returns (status: u32)
      requires Valid() && |r| == RecordSize(ChannelEnable)
      modifies this
      ensures Valid() && (status != OK ==> View() == old(View()))
      ensures (View(), status) == ApplyEnable(old(View()), r)
    {
      RecordKeepsMirror(ChannelEnable, View(), r);
      var ch, dir, on := r[0], r[1], r[2] != 0;
      if dir > DIR_RX {
        return DIR_UNKNOWN;
      }
      if ch >= NUM_CHANNELS {
        return if dir == DIR_TX then TX_OUT_OF_RANGE else RX_OUT_OF_RANGE;
      }
      if dir == DIR_RX {
        if !rx[ch].setup {
          return RX_NOT_INIT;
        }
        rx := rx[ch := rx[ch].(enabled := on)];
        return OK;
      }
      if !tx[ch].setup {
        return TX_NOT_INIT;
      }
      tx := tx[ch := tx[ch].(enabled := on)];
      if !engine[ch].setup {
        assert false;
      }
      engine := engine[ch := engine[ch].(enabled := on)];
      return OK;
    }

    method Record(k: Kind, r: seq<byte>) returns (status: u32)
      requires Valid() && |r| == RecordSize(k)
      modifies this
      ensures Valid() && (status != OK ==> View() == old(View()))
      ensures (View(), status) == ApplyRecord(k, old(View()), r)
    {
      RecordKeepsMirror(k, View(), r);
      match k {
        case ChannelSetup => status := SetupRecord(r);
        case ChannelEnable => status := EnableRecord(r);
        case SendManual =>
          if r[0] >= NUM_CHANNELS {
            return TX_OUT_OF_RANGE;
          }
          if !tx[r[0]].setup {
            return TX_NOT_INIT;
          }
          if !engine[r[0]].setup {
            assert false;
          }
          return OK;
        case AddLabel =>
          if r[0] >= NUM_CHANNELS {
            return TX_OUT_OF_RANGE;
          }
          status := AddLabel(r[0], FromLe16(r[1..3]), r[3..11]);
        case UpdateLabel =>
          var ch := r[0] % 16;
          if ch >= NUM_CHANNELS {
            return TX_OUT_OF_RANGE;
          }
          status := SetLabel(ch, FromLe32(r[1..5]), r[0] / 16 % 2 == 1, r[0] / 32 % 2 == 1);
      }
    }

    // ---- whole commands ----------------------------------------------------------------------

    /** One turn of the loop: the record at `off`; `goal` is the outcome of the whole batch. */
    method BatchTurn(k: Kind, payload: seq<byte>, off: nat, ghost before: Named, ghost goal: Outcome)
      returns (status: u32, extra: Named)
      requires Valid() && off + RecordSize(k) <= |payload| && Channels.Batch(k, View(), payload[off..], before) == goal
      modifies this
      ensures Valid()
      ensures status != OK ==> Outcome(View(), status, extra) == goal
      ensures status == OK ==> Channels.Batch(k, View(), payload[off + RecordSize(k)..], extra) == goal
    {
      var r := payload[off..off + RecordSize(k)];
      BatchFirst(k, View(), payload, off, before);
      extra := Extra(k, r);
      status := Record(k, r);
    }

    /** The loop shared by the five batch handlers. */
    method Batch(k: Kind, payload: seq<byte>) returns (status: u32, extra: Named)
      requires Valid()
      modifies this
      ensures Valid()
      ensures Outcome(View(), status, extra) == Channels.Command(k, old(View()), payload)
    {
      status, extra := OK, [0, 0];
      var off := 0;
      if |payload| < RecordSize(k) {
        status := ERROR;
      }
      ghost var goal := Channels.Command(k, View(), payload);
      assert payload[0..] == payload;
      while off + RecordSize(k) <= |payload|
        invariant Valid() && off <= |payload|
        invariant |payload| < RecordSize(k) ==> Outcome(View(), status, extra) == goal
        invariant |payload| >= RecordSize(k)
                  ==> status == OK && Channels.Batch(k, View(), payload[off..], extra) == goal
      {
        status, extra := BatchTurn(k, payload, off, extra, goal);
        if status != OK {
          return;
        }
        off := off + RecordSize(k);
      }
    }

    /** handle_tt_build */
    method BuildTable(payload: seq<byte>) returns (status: u32, extra: Named)
      requires Valid()
      modifies this
      ensures Valid()
      ensures Outcome(View(), status, extra) == BuildCommand(old(View()), payload)
    {
      if |payload| < 1 {
        return ERROR, [0];
      }
      if payload[0] >= NUM_CHANNELS {
        return TX_OUT_OF_RANGE, [payload[0]];
      }
      status := Build(payload[0]);
      extra := [payload[0]];
    }
  }
}
