/** The ARINC channel tables: `g_chnl` of components/lccore/comm_core.c and its mirror `g_tx`
    of components/lccore/arinc_glue.c, with the batch commands that change them. */
module Channels {
  import opened Bytes

  const NUM_CHANNELS := 4
  const MAX_LABELS := 128
  const DIR_TX := 0
  const DIR_RX := 1
  const SPEED_50KHZ := 2
  const MODE_RX_RAW := 3

  const OK := 0
  const ERROR := 2
  const SPEED_UNKNOWN := 10
  const DIR_UNKNOWN := 11
  const INVALID_MODE := 12
  const QUEUE_FULL := 13
  const TX_OUT_OF_RANGE := 14
  const TX_NOT_INIT := 15
  const RX_OUT_OF_RANGE := 19
  const RX_NOT_INIT := 21

  datatype Channel = Channel(setup: bool, enabled: bool, speed: byte, mode: byte, delay: u16)
  /** `timing` keeps the two floats of ADD_LABEL as bytes. */
  datatype Label = Label(id: u16, timing: seq<byte>, word: u32, txEnabled: bool, wordSet: bool)
  datatype TxChannel = TxChannel(setup: bool, enabled: bool, speed: byte, mode: byte, delay: u16, built: bool,
                                 labels: seq<Label>)

  const NO_CHANNEL := Channel(false, false, 0, 0, 0)
  const NO_TX := TxChannel(false, false, 0, 0, 0, false, [])

  type Bank = s: seq<Channel> | |s| == NUM_CHANNELS witness [NO_CHANNEL, NO_CHANNEL, NO_CHANNEL, NO_CHANNEL]
  type TxBank = s: seq<TxChannel> | |s| == NUM_CHANNELS witness [NO_TX, NO_TX, NO_TX, NO_TX]
  /** `g_chnl[DIR_TX]`, `g_chnl[DIR_RX]` and `g_tx`. */
  datatype Tables = Tables(tx: Bank, rx: Bank, engine: TxBank)

  const RESET := Tables([NO_CHANNEL, NO_CHANNEL, NO_CHANNEL, NO_CHANNEL],
                        [NO_CHANNEL, NO_CHANNEL, NO_CHANNEL, NO_CHANNEL],
                        [NO_TX, NO_TX, NO_TX, NO_TX])

  // ---- the transmit engine -----------------------------------------------------------------

  function EngineSetup(speed: byte, mode: byte, delay: u16): TxChannel {
    TxChannel(true, false, speed, mode, delay, false, [])
  }

  function EngineAddLabel(c: TxChannel, id: u16, timing: seq<byte>): (TxChannel, u32) {
    if !c.setup then (c, TX_NOT_INIT)
    else if |c.labels| >= MAX_LABELS then (c, QUEUE_FULL)
    else (c.(labels := c.labels + [Label(id, timing, 0, false, false)], built := false), OK)
  }

  function EngineBuild(c: TxChannel): (TxChannel, u32) {
    if !c.setup then (c, TX_NOT_INIT) else (c.(built := true), OK)
  }

  function EngineEnable(c: TxChannel, enable: bool): (TxChannel, u32) {
    if !c.setup then (c, TX_NOT_INIT) else (c.(enabled := enable), OK)
  }

  /** The label a word addresses: same label byte and, unless the SDI bits are data, same SDI. */
  predicate Addressed(l: Label, packet: u32, sdiIsData: bool) {
    l.id % 256 == packet % 256 && (sdiIsData || l.id / 256 % 4 == packet / 256 % 4)
  }

  /** The first addressed label; |labels| when there is none. */
  function FindLabel(labels: seq<Label>, packet: u32, sdiIsData: bool): (i: nat)
    ensures i <= |labels|
    ensures i < |labels| ==> Addressed(labels[i], packet, sdiIsData)
    ensures forall j :: 0 <= j < i ==> !Addressed(labels[j], packet, sdiIsData)
  {
    if labels == [] || Addressed(labels[0], packet, sdiIsData) then 0 else 1 + FindLabel(labels[1..], packet, sdiIsData)
  }

  function EngineSetLabel(c: TxChannel, packet: u32, sdiIsData: bool, enable: bool): (TxChannel, u32) {
    if !c.setup then (c, TX_NOT_INIT)
    else
      var i := FindLabel(c.labels, packet, sdiIsData);
      if i == |c.labels| then (c, OK)
      else (c.(labels := c.labels[i := c.labels[i].(word := packet, txEnabled := enable, wordSet := true)]), OK)
  }

  // ---- one record of a batch command ------------------------------------------------------------

  datatype Kind = ChannelSetup | ChannelEnable | SendManual | AddLabel | UpdateLabel

  function RecordSize(k: Kind): nat {
    match k
    case ChannelSetup => 6
    case ChannelEnable => 3
    case SendManual => 5
    case AddLabel => 11
    case UpdateLabel => 5
  }

  /** apply_chnl_setup on <chnl, direction, speed, mode, delay>. */
  function ApplySetup(t: Tables, r: seq<byte>): (Tables, u32)
    requires |r| == RecordSize(ChannelSetup)
  {
    var ch, dir, speed, mode, delay := r[0], r[1], r[2], r[3], FromLe16(r[4..6]);
    if dir > DIR_RX then (t, DIR_UNKNOWN)
    else if ch >= NUM_CHANNELS then (t, if dir == DIR_TX then TX_OUT_OF_RANGE else RX_OUT_OF_RANGE)
    else if speed > SPEED_50KHZ then (t, SPEED_UNKNOWN)
    else if mode > MODE_RX_RAW then (t, INVALID_MODE)
    else
      var c := Channel(true, false, speed, mode, delay);
      if dir == DIR_TX then (t.(tx := t.tx[ch := c], engine := t.engine[ch := EngineSetup(speed, mode, delay)]), OK)
      else (t.(rx := t.rx[ch := c]), OK)
  }

  /** apply_chnl_enable on <chnl, direction, is_enable>. */
  function ApplyEnable(t: Tables, r: seq<byte>): (Tables, u32)
    requires |r| == RecordSize(ChannelEnable)
  {
    var ch, dir, on := r[0], r[1], r[2] != 0;
    if dir > DIR_RX then (t, DIR_UNKNOWN)
    else if ch >= NUM_CHANNELS then (t, if dir == DIR_TX then TX_OUT_OF_RANGE else RX_OUT_OF_RANGE)
    else if dir == DIR_TX then
      if !t.tx[ch].setup then (t, TX_NOT_INIT)
      else
        var (e, status) := EngineEnable(t.engine[ch], on);
        (t.(tx := t.tx[ch := t.tx[ch].(enabled := on)], engine := t.engine[ch := e]), status)
    else if !t.rx[ch].setup then (t, RX_NOT_INIT)
    else (t.(rx := t.rx[ch := t.rx[ch].(enabled := on)]), OK)
  }

  /** One record of any batch command: the new tables and its status. */
  function ApplyRecord(k: Kind, t: Tables, r: seq<byte>): (Tables, u32)
    requires |r| == RecordSize(k)
  {
    match k
    case ChannelSetup => ApplySetup(t, r)
    case ChannelEnable => ApplyEnable(t, r)
    case SendManual =>
      if r[0] >= NUM_CHANNELS then (t, TX_OUT_OF_RANGE)
      else if !t.tx[r[0]].setup || !t.engine[r[0]].setup then (t, TX_NOT_INIT)
      else (t, OK)
    case AddLabel =>
      if r[0] >= NUM_CHANNELS then (t, TX_OUT_OF_RANGE)
      else
        var (e, status) := EngineAddLabel(t.engine[r[0]], FromLe16(r[1..3]), r[3..11]);
        (t.(engine := t.engine[r[0] := e]), status)
    case UpdateLabel =>
      var ch := r[0] % 16;
      if ch >= NUM_CHANNELS then (t, TX_OUT_OF_RANGE)
      else
        var (e, status) := EngineSetLabel(t.engine[ch], FromLe32(r[1..5]), r[0] / 16 % 2 == 1, r[0] / 32 % 2 == 1);
        (t.(engine := t.engine[ch := e]), status)
  }

  /** The extra bytes of an ACK. */
  type Named = s: seq<byte> | |s| <= 2 witness []

  /** What the ACK says a record referred to: channel and direction. */
  function Extra(k: Kind, r: seq<byte>): Named
    requires |r| == RecordSize(k)
  {
    match k
    case ChannelSetup => [r[0], r[1]]
    case ChannelEnable => [r[0], r[1]]
    case UpdateLabel => [r[0] % 16, DIR_TX]
    case _ => [r[0], DIR_TX]
  }

  // ---- batches -------------------------------------------------------------------------------------

  /** The result of a batch: tables, status, and the extra bytes of the ACK. */
  datatype Outcome = Outcome(tables: Tables, status: u32, extra: Named)

  /** Records are applied until one fails; an incomplete last record is ignored. */
  function Batch(k: Kind, t: Tables, payload: seq<byte>, extra: Named): Outcome
    decreases payload
  {
    var n := RecordSize(k);
    if |payload| < n then Outcome(t, OK, extra)
    else
      var r := payload[..n];
      var (t1, status) := ApplyRecord(k, t, r);
      if status != OK then Outcome(t1, status, Extra(k, r)) else Batch(k, t1, payload[n..], Extra(k, r))
  }

  /** A batch command: a payload shorter than one record is an error. */
  function Command(k: Kind, t: Tables, payload: seq<byte>): Outcome {
    if |payload| < RecordSize(k) then Outcome(t, ERROR, [0, 0]) else Batch(k, t, payload, [0, 0])
  }

  /** TT_BUILD: <channel>. */
  function BuildCommand(t: Tables, payload: seq<byte>): Outcome {
    if |payload| < 1 then Outcome(t, ERROR, [0])
    else if payload[0] >= NUM_CHANNELS then Outcome(t, TX_OUT_OF_RANGE, [payload[0]])
    else
      var (e, status) := EngineBuild(t.engine[payload[0]]);
      Outcome(t.(engine := t.engine[payload[0] := e]), status, [payload[0]])
  }

  // ---- what a gateway's record does ----------------------------------------------------------------

  /** `t'` is `t` but for channel `ch` of one direction. */
  predicate OnlyChannel(t: Tables, t': Tables, dir: byte, ch: nat) {
    && (dir == DIR_TX ==> t'.rx == t.rx) && (dir == DIR_RX ==> t'.tx == t.tx && t'.engine == t.engine)
    && (forall i :: 0 <= i < NUM_CHANNELS && i != ch ==>
          t'.tx[i] == t.tx[i] && t'.rx[i] == t.rx[i] && t'.engine[i] == t.engine[i])
  }

  /** A SETUP record is accepted exactly when all its fields are in range, and then its channel,
      in both tables, has the fields sent, is disabled, and has an empty timetable. */
  lemma SetupTakesEffect(t: Tables, ch: byte, dir: byte, speed: byte, mode: byte, delay: u16)
    ensures var (t', status) := ApplyRecord(ChannelSetup, t, [ch, dir, speed, mode] + Le16(delay));
            && (status == OK <==> dir <= DIR_RX && ch < NUM_CHANNELS && speed <= SPEED_50KHZ && mode <= MODE_RX_RAW)
            && (status == OK ==>
                  var c := if dir == DIR_TX then t'.tx[ch] else t'.rx[ch];
                  && c.setup && !c.enabled && c.speed == speed && c.mode == mode && c.delay == delay
                  && (dir == DIR_TX ==> Same(c, t'.engine[ch]) && t'.engine[ch].labels == [] && !t'.engine[ch].built)
                  && OnlyChannel(t, t', dir, ch))
  {
    Le16RoundTrip(delay);
    assert ([ch, dir, speed, mode] + Le16(delay))[4..6] == Le16(delay);
  }

  /** An ENABLE record is accepted exactly when its channel is in range and set up, and then
      changes that channel's flag, in both tables, and nothing else. */
  lemma EnableTakesEffect(t: Tables, ch: byte, dir: byte, on: byte)
    requires Mirror(t)
    ensures var (t', status) := ApplyRecord(ChannelEnable, t, [ch, dir, on]);
            && (status == OK <==>
                  dir <= DIR_RX && ch < NUM_CHANNELS && (if dir == DIR_TX then t.tx[ch].setup else t.rx[ch].setup))
            && (status == OK ==>
                  && (dir == DIR_TX ==>
                        && t'.tx[ch] == t.tx[ch].(enabled := on != 0)
                        && t'.engine[ch] == t.engine[ch].(enabled := on != 0))
                  && (dir == DIR_RX ==> t'.rx[ch] == t.rx[ch].(enabled := on != 0))
                  && OnlyChannel(t, t', dir, ch))
  {
    if dir == DIR_TX && ch < NUM_CHANNELS {
      assert Same(t.tx[ch], t.engine[ch]);
    }
  }

  /** A word for a label just added, when no earlier label answers to it, lands in that label
      and leaves the others alone. */
  lemma AddThenUpdate(c: TxChannel, id: u16, timing: seq<byte>, packet: u32, sdiIsData: bool, enable: bool)
    requires c.setup && |c.labels| < MAX_LABELS
    requires Addressed(Label(id, timing, 0, false, false), packet, sdiIsData)
    requires forall i :: 0 <= i < |c.labels| ==> !Addressed(c.labels[i], packet, sdiIsData)
    ensures var (c1, added) := EngineAddLabel(c, id, timing);
            var (c2, updated) := EngineSetLabel(c1, packet, sdiIsData, enable);
            && added == OK && updated == OK
            && c2.labels == c.labels + [Label(id, timing, packet, enable, true)]
  {
    var c1 := EngineAddLabel(c, id, timing).0;
    assert forall i :: 0 <= i < |c.labels| ==> c1.labels[i] == c.labels[i];
    var i, added := FindLabel(c1.labels, packet, sdiIsData), Label(id, timing, 0, false, false);
    assert c1.labels[|c.labels|] == added;
    assert i == |c.labels|;
    assert (c.labels + [added])[i := added.(word := packet, txEnabled := enable, wordSet := true)]
        == c.labels + [Label(id, timing, packet, enable, true)];
  }

  /** A word, or the number of a label: the label in the low byte, the SDI in the two bits above it. */
  function Numbered(lbl: byte, sdi: nat, rest: nat): nat
    requires sdi < 4
  {
    lbl as int + 256 * sdi + 1024 * rest
  }

  /** A word addresses the labels with its label byte and, unless the SDI bits are data, its SDI. */
  lemma AddressedIff(l: Label, lbl: byte, sdi: nat, rest: nat, lbl': byte, sdi': nat, rest': nat, sdiIsData: bool)
    requires sdi < 4 && sdi' < 4 && l.id == Numbered(lbl, sdi, rest) && Numbered(lbl', sdi', rest') < 0x1_0000_0000
    ensures Addressed(l, Numbered(lbl', sdi', rest'), sdiIsData) <==> lbl == lbl' && (sdiIsData || sdi == sdi')
  {
    NumberedFields(lbl, sdi, rest);
    NumberedFields(lbl', sdi', rest');
  }

  lemma NumberedFields(lbl: byte, sdi: nat, rest: nat)
    requires sdi < 4
    ensures var n := Numbered(lbl, sdi, rest); n % 256 == lbl && n / 256 % 4 == sdi
  {
    assert Numbered(lbl, sdi, rest) / 256 == sdi + 4 * rest;
  }

  /** The first label a word addresses. */
  predicate FirstAddressed(labels: seq<Label>, j: nat, packet: u32, sdiIsData: bool) {
    && j < |labels| && Addressed(labels[j], packet, sdiIsData)
    && forall i :: 0 <= i < j ==> !Addressed(labels[i], packet, sdiIsData)
  }

  /** The first byte of a TT_UPD_LBL record; its two high bits mean nothing. */
  function ConfigByte(ch: nat, sdiIsData: bool, enable: bool, high: nat): byte
    requires ch < 16 && high < 4
  {
    ch + (if sdiIsData then 16 else 0) + (if enable then 32 else 0) + 64 * high
  }

  lemma ConfigBits(ch: nat, sdiIsData: bool, enable: bool, high: nat)
    requires ch < 16 && high < 4
    ensures var config := ConfigByte(ch, sdiIsData, enable, high);
            config % 16 == ch && (config / 16 % 2 == 1 <==> sdiIsData) && (config / 32 % 2 == 1 <==> enable)
  {
  }

  /** A TT_UPD_LBL record: the channel in the low four bits of its first byte, then whether the
      SDI bits are data, then whether the label is sent. It is accepted exactly when the channel
      exists and is set up, and then gives the first label its word addresses that word and that
      flag, and changes nothing else. */
  lemma UpdateTakesEffect(t: Tables, ch: nat, sdiIsData: bool, enable: bool, high: nat, packet: u32)
    requires ch < 16 && high < 4
    ensures var (t', status) := ApplyRecord(UpdateLabel, t, [ConfigByte(ch, sdiIsData, enable, high)] + Le32(packet));
            && (status == OK <==> ch < NUM_CHANNELS && t.engine[ch].setup)
            && (status == TX_OUT_OF_RANGE <==> ch >= NUM_CHANNELS)
            && (status == TX_NOT_INIT <==> ch < NUM_CHANNELS && !t.engine[ch].setup)
            && t'.tx == t.tx && t'.rx == t.rx
            && (forall i :: 0 <= i < NUM_CHANNELS && i != ch ==> t'.engine[i] == t.engine[i])
            && (status == OK ==> LabelSet(t.engine[ch], t'.engine[ch], packet, sdiIsData, enable))
  {
    var config := ConfigByte(ch, sdiIsData, enable, high);
    var r := [config] + Le32(packet);
    Le32RoundTrip(packet);
    assert r[1..5] == Le32(packet);
    ConfigBits(ch, sdiIsData, enable, high);
    if ch < NUM_CHANNELS && t.engine[ch].setup {
      SetLabelEffect(t.engine[ch], packet, sdiIsData, enable);
    }
  }

  /** Only the first addressed label differs: it has the word, and is sent or not as told. */
  predicate LabelSet(c: TxChannel, c': TxChannel, packet: u32, sdiIsData: bool, enable: bool) {
    && c' == c.(labels := c'.labels) && |c'.labels| == |c.labels|
    && forall j :: 0 <= j < |c.labels| ==>
         c'.labels[j] == if FirstAddressed(c.labels, j, packet, sdiIsData)
                         then c.labels[j].(word := packet, txEnabled := enable, wordSet := true) else c.labels[j]
  }

  lemma SetLabelEffect(c: TxChannel, packet: u32, sdiIsData: bool, enable: bool)
    requires c.setup
    ensures var (c', status) := EngineSetLabel(c, packet, sdiIsData, enable);
            status == OK && LabelSet(c, c', packet, sdiIsData, enable)
  {
    var i := FindLabel(c.labels, packet, sdiIsData);
    forall j | 0 <= j < |c.labels| ensures FirstAddressed(c.labels, j, packet, sdiIsData) <==> j == i {
    }
  }

  /** An ADD_LABEL record: channel, label, two floats. It is accepted exactly when the channel
      exists, is set up and has room; the label goes to the end, without a word and not sent,
      and the table needs a new build. */
  lemma AddTakesEffect(t: Tables, ch: byte, id: u16, timing: seq<byte>)
    requires |timing| == 8
    ensures var (t', status) := ApplyRecord(AddLabel, t, [ch] + Le16(id) + timing);
            && (status == OK <==> ch < NUM_CHANNELS && t.engine[ch].setup && |t.engine[ch].labels| < 128)
            && (status == TX_OUT_OF_RANGE <==> ch >= NUM_CHANNELS)
            && (status == TX_NOT_INIT <==> ch < NUM_CHANNELS && !t.engine[ch].setup)
            && (status == QUEUE_FULL <==> ch < NUM_CHANNELS && t.engine[ch].setup && |t.engine[ch].labels| >= 128)
            && (status == OK ==>
                  && t' == t.(engine := t'.engine)
                  && t'.engine[ch].labels == t.engine[ch].labels + [Label(id, timing, 0, false, false)]
                  && t'.engine[ch] == t.engine[ch].(labels := t'.engine[ch].labels, built := false)
                  && forall i :: 0 <= i < NUM_CHANNELS && i != ch ==> t'.engine[i] == t.engine[i])
  {
    var r := [ch] + Le16(id) + timing;
    Le16RoundTrip(id);
    assert r[1..3] == Le16(id) && r[3..11] == timing;
  }

  /** A SEND_LABEL_MANUAL record is accepted exactly when its channel exists and is set up. */
  lemma ManualAcceptedIff(t: Tables, ch: byte, word: seq<byte>)
    requires Mirror(t) && |word| == 4
    ensures var status := ApplyRecord(SendManual, t, [ch] + word).1;
            && (status == OK <==> ch < NUM_CHANNELS && t.tx[ch].setup)
            && (status == TX_OUT_OF_RANGE <==> ch >= NUM_CHANNELS)
            && (status == TX_NOT_INIT <==> ch < NUM_CHANNELS && !t.tx[ch].setup)
  {
    if ch < NUM_CHANNELS {
      assert Same(t.tx[ch], t.engine[ch]);
    }
  }

  /** TT_BUILD marks the table of its channel built, and changes nothing else. */
  lemma BuildTakesEffect(t: Tables, payload: seq<byte>)
    ensures var b := BuildCommand(t, payload);
            && (b.status == OK <==> payload != [] && payload[0] < NUM_CHANNELS && t.engine[payload[0]].setup)
            && (b.status == OK ==>
                  && b.tables == t.(engine := b.tables.engine)
                  && b.tables.engine[payload[0]] == t.engine[payload[0]].(built := true)
                  && forall i :: 0 <= i < NUM_CHANNELS && i != payload[0] ==> b.tables.engine[i] == t.engine[i])
            && (b.status != OK ==> b.tables.tx == t.tx && b.tables.rx == t.rx
                                   && forall i :: 0 <= i < NUM_CHANNELS ==> b.tables.engine[i] == t.engine[i])
  {
  }

  /** What a refused SETUP record is told: its first bad field, in the order direction, channel,
      speed, mode. */
  lemma SetupRefusal(t: Tables, r: seq<byte>)
    requires |r| == 6
    ensures var status := ApplyRecord(ChannelSetup, t, r).1;
            && (status == DIR_UNKNOWN <==> r[1] > 1)
            && (status == TX_OUT_OF_RANGE <==> r[1] == 0 && r[0] >= 4)
            && (status == RX_OUT_OF_RANGE <==> r[1] == 1 && r[0] >= 4)
            && (status == SPEED_UNKNOWN <==> r[1] <= 1 && r[0] < 4 && r[2] > 2)
            && (status == INVALID_MODE <==> r[1] <= 1 && r[0] < 4 && r[2] <= 2 && r[3] > 3)
  {
  }

  /** What a refused ENABLE record is told: an unknown direction, a channel out of range, or one
      not set up. */
  lemma EnableRefusal(t: Tables, r: seq<byte>)
    requires Mirror(t) && |r| == 3
    ensures var status := ApplyRecord(ChannelEnable, t, r).1;
            && (status == DIR_UNKNOWN <==> r[1] > 1)
            && (status == TX_OUT_OF_RANGE <==> r[1] == 0 && r[0] >= 4)
            && (status == RX_OUT_OF_RANGE <==> r[1] == 1 && r[0] >= 4)
            && (status == TX_NOT_INIT <==> r[1] == 0 && r[0] < 4 && !t.tx[r[0]].setup)
            && (status == RX_NOT_INIT <==> r[1] == 1 && r[0] < 4 && !t.rx[r[0]].setup)
  {
    if r[0] < NUM_CHANNELS {
      assert Same(t.tx[r[0]], t.engine[r[0]]);
    }
  }

  // ---- the two tables agree --------------------------------------------------------------------------

  predicate Same(c: Channel, e: TxChannel) {
    && c.setup == e.setup && c.enabled == e.enabled && c.speed == e.speed && c.mode == e.mode && c.delay == e.delay
    && (c.enabled ==> c.setup)
    && |e.labels| <= MAX_LABELS
    && (e.labels != [] || e.built ==> e.setup)
  }

  predicate Mirror(t: Tables) {
    && (forall i :: 0 <= i < NUM_CHANNELS ==> Same(t.tx[i], t.engine[i]))
    && (forall i :: 0 <= i < NUM_CHANNELS ==> t.rx[i].enabled ==> t.rx[i].setup)
  }

  lemma EngineKeepsMirror(t: Tables, ch: nat, c: Channel, e: TxChannel)
    requires Mirror(t) && ch < NUM_CHANNELS && Same(c, e)
    ensures Mirror(t.(tx := t.tx[ch := c], engine := t.engine[ch := e]))
  {
  }

  /** Every record keeps the tables in agreement, and one that fails changes nothing. */
  lemma RecordKeepsMirror(k: Kind, t: Tables, r: seq<byte>)
    requires Mirror(t) && |r| == RecordSize(k)
    ensures Mirror(ApplyRecord(k, t, r).0)
    ensures ApplyRecord(k, t, r).1 != OK ==> ApplyRecord(k, t, r).0 == t
  {
    match k
    case ChannelSetup =>
      if r[1] == DIR_TX && ApplySetup(t, r).1 == OK {
        var delay := FromLe16(r[4..6]);
        EngineKeepsMirror(t, r[0], Channel(true, false, r[2], r[3], delay), EngineSetup(r[2], r[3], delay));
      }
    case ChannelEnable =>
      if r[1] == DIR_TX && r[0] < NUM_CHANNELS {
        assert Same(t.tx[r[0]], t.engine[r[0]]);
        if t.tx[r[0]].setup {
          EngineKeepsMirror(t, r[0], t.tx[r[0]].(enabled := r[2] != 0), EngineEnable(t.engine[r[0]], r[2] != 0).0);
        }
      }
    case SendManual =>
    case AddLabel =>
      if r[0] < NUM_CHANNELS {
        SameChannel(t, r[0], EngineAddLabel(t.engine[r[0]], FromLe16(r[1..3]), r[3..11]).0);
      }
    case UpdateLabel =>
      var ch: nat := r[0] % 16;
      if ch < NUM_CHANNELS {
        SameChannel(t, ch, EngineSetLabel(t.engine[ch], FromLe32(r[1..5]), r[0] / 16 % 2 == 1, r[0] / 32 % 2 == 1).0);
      }
  }

  /** A change of the engine alone that keeps what the mirror shows. */
  lemma SameChannel(t: Tables, ch: nat, e: TxChannel)
    requires Mirror(t) && ch < NUM_CHANNELS
    ensures Same(t.tx[ch], e) ==> Mirror(t.(engine := t.engine[ch := e]))
    ensures e == t.engine[ch] ==> t.(engine := t.engine[ch := e]) == t
  {
    assert t.tx == t.tx[ch := t.tx[ch]];
    assert Same(t.tx[ch], t.engine[ch]);
    if Same(t.tx[ch], e) {
      EngineKeepsMirror(t, ch, t.tx[ch], e);
    }
    if e == t.engine[ch] {
      assert t.engine[ch := e] == t.engine;
    }
  }

  /** The whole records of a payload. */
  function Records(k: Kind, payload: seq<byte>): (rs: seq<seq<byte>>)
    ensures Sized(k, rs)
    decreases payload
  {
    var n := RecordSize(k);
    if |payload| < n then [] else [payload[..n]] + Records(k, payload[n..])
  }

  predicate Sized(k: Kind, rs: seq<seq<byte>>) {
    forall i :: 0 <= i < |rs| ==> |rs[i]| == RecordSize(k)
  }

  /** The tables after applying records one by one, failing ones included. */
  function AfterRecords(k: Kind, t: Tables, rs: seq<seq<byte>>): Tables
    requires Sized(k, rs)
    decreases rs
  {
    if rs == [] then t else AfterRecords(k, ApplyRecord(k, t, rs[0]).0, rs[1..])
  }

  /** How many records come before the first failing one. */
  function GoodRecords(k: Kind, t: Tables, rs: seq<seq<byte>>): (n: nat)
    requires Sized(k, rs)
    ensures n <= |rs|
    decreases rs
  {
    if rs == [] || ApplyRecord(k, t, rs[0]).1 != OK then 0 else 1 + GoodRecords(k, ApplyRecord(k, t, rs[0]).0, rs[1..])
  }

  lemma OneMoreGood(k: Kind, t: Tables, r: seq<byte>, rest: seq<seq<byte>>, n: nat)
    requires |r| == RecordSize(k) && Sized(k, rest) && ApplyRecord(k, t, r).1 == OK && n <= |rest|
    ensures GoodRecords(k, t, [r] + rest) == 1 + GoodRecords(k, ApplyRecord(k, t, r).0, rest)
    ensures AfterRecords(k, t, ([r] + rest)[..n + 1]) == AfterRecords(k, ApplyRecord(k, t, r).0, rest[..n])
  {
    assert ([r] + rest)[1..] == rest;
    assert ([r] + rest)[..n + 1][1..] == rest[..n];
  }

  /** The batch applied the records before the first failing one, with that one's status. */
  predicate AppliesPrefix(k: Kind, t: Tables, rs: seq<seq<byte>>, b: Outcome)
    requires Sized(k, rs)
  {
    var n := GoodRecords(k, t, rs);
    && b.tables == AfterRecords(k, t, rs[..n])
    && b.status == (if n == |rs| then OK else ApplyRecord(k, b.tables, rs[n]).1)
    && (b.status == OK <==> n == |rs|)
    && Mirror(b.tables)
  }

  lemma PrefixGrows(k: Kind, t: Tables, r: seq<byte>, rest: seq<seq<byte>>, b: Outcome)
    requires |r| == RecordSize(k) && Sized(k, rest) && ApplyRecord(k, t, r).1 == OK
    requires AppliesPrefix(k, ApplyRecord(k, t, r).0, rest, b)
    ensures AppliesPrefix(k, t, [r] + rest, b)
  {
    var n := GoodRecords(k, ApplyRecord(k, t, r).0, rest);
    OneMoreGood(k, t, r, rest, n);
    assert n < |rest| ==> ([r] + rest)[n + 1] == rest[n];
  }

  lemma PrefixEnds(k: Kind, t: Tables, r: seq<byte>, rest: seq<seq<byte>>, b: Outcome)
    requires Mirror(t) && |r| == RecordSize(k) && Sized(k, rest)
    requires ApplyRecord(k, t, r).1 != OK && (b.tables, b.status) == ApplyRecord(k, t, r)
    ensures AppliesPrefix(k, t, [r] + rest, b)
  {
    RecordKeepsMirror(k, t, r);
    assert ([r] + rest)[..0] == [];
  }

  /** A multi-record payload applies exactly the records before the first failing one and
      answers with that one's status; the tables stay in agreement. */
  lemma {:induction false} BatchAppliesPrefix(k: Kind, t: Tables, payload: seq<byte>, extra: Named)
    requires Mirror(t)
    ensures AppliesPrefix(k, t, Records(k, payload), Batch(k, t, payload, extra))
    decreases payload
  {
    var size := RecordSize(k);
    if |payload| >= size {
      var r, rest := payload[..size], Records(k, payload[size..]);
      var (t1, status) := ApplyRecord(k, t, r);
      if status == OK {
        RecordKeepsMirror(k, t, r);
        BatchAppliesPrefix(k, t1, payload[size..], Extra(k, r));
        PrefixGrows(k, t, r, rest, Batch(k, t1, payload[size..], Extra(k, r)));
      } else {
        PrefixEnds(k, t, r, rest, Batch(k, t, payload, extra));
      }
    }
  }

  /** The channel and the direction an answer names: those of the record, or the channel of a
      command that only transmits. */
  predicate Names(k: Kind, r: seq<byte>, extra: Named)
    requires |r| == RecordSize(k)
  {
    && |extra| == 2
    && extra[0] == (if k == UpdateLabel then r[0] % 16 else r[0])
    && extra[1] == (if k == ChannelSetup || k == ChannelEnable then r[1] else 0)
  }

  /** A batch answer names the first record refused, or else the last whole one; zeros without any. */
  lemma {:induction false} AnswerNamesRecord(k: Kind, t: Tables, payload: seq<byte>, extra: Named)
    ensures var rs, b := Records(k, payload), Batch(k, t, payload, extra);
            var n := GoodRecords(k, t, rs);
            if rs == [] then b.extra == extra else Names(k, rs[if n < |rs| then n else |rs| - 1], b.extra)
    decreases payload
  {
    var size := RecordSize(k);
    if |payload| >= size {
      var r, rest := payload[..size], Records(k, payload[size..]);
      var (t1, status) := ApplyRecord(k, t, r);
      assert Records(k, payload) == [r] + rest && ([r] + rest)[1..] == rest;
      if status == OK {
        AnswerNamesRecord(k, t1, payload[size..], Extra(k, r));
        OneMoreGood(k, t, r, rest, GoodRecords(k, t1, rest));
      }
    }
  }

  lemma ResetMirror()
    ensures Mirror(RESET)
  {
  }

  lemma CommandKeepsMirror(k: Kind, t: Tables, payload: seq<byte>)
    requires Mirror(t)
    ensures Mirror(Command(k, t, payload).tables)
  {
    BatchAppliesPrefix(k, t, payload, [0, 0]);
  }

  lemma BuildKeepsMirror(t: Tables, payload: seq<byte>)
    requires Mirror(t)
    ensures Mirror(BuildCommand(t, payload).tables)
    ensures BuildCommand(t, payload).status != OK ==> BuildCommand(t, payload).tables == t
  {
    if |payload| >= 1 && payload[0] < NUM_CHANNELS {
      assert Same(t.tx[payload[0]], t.engine[payload[0]]);
      SameChannel(t, payload[0], EngineBuild(t.engine[payload[0]]).0);
    }
  }

  // ---- which records leave a channel enabled --------------------------------------------------------

  /** The enable flag of one channel. */
  predicate Flag(t: Tables, dir: byte, ch: nat)
    requires ch < NUM_CHANNELS
  {
    if dir == DIR_TX then t.tx[ch].enabled else t.rx[ch].enabled
  }

  /** A record with its command. */
  datatype Record = Record(k: Kind, r: seq<byte>)

  /** A SETUP or ENABLE record for the channel. */
  predicate Switches(rec: Record, dir: byte, ch: nat) {
    && (rec.k == ChannelSetup || rec.k == ChannelEnable)
    && |rec.r| == RecordSize(rec.k) && rec.r[0] == ch && rec.r[1] == dir
  }

  /** What the last such record leaves: a SETUP disables, an ENABLE says; `before` without one. */
  predicate LastRecord(recs: seq<Record>, dir: byte, ch: nat, before: bool) {
    if recs == [] then before
    else
      var last := recs[|recs| - 1];
      if Switches(last, dir, ch) then last.k == ChannelEnable && last.r[2] != 0
      else LastRecord(recs[..|recs| - 1], dir, ch, before)
  }

  lemma {:induction false} LastRecordConcat(a: seq<Record>, b: seq<Record>, dir: byte, ch: nat, before: bool)
    ensures LastRecord(a + b, dir, ch, before) == LastRecord(b, dir, ch, LastRecord(a, dir, ch, before))
  {
    if b == [] {
      assert a + b == a;
    } else {
      assert (a + b)[..|a + b| - 1] == a + b[..|b| - 1];
      LastRecordConcat(a, b[..|b| - 1], dir, ch, before);
    }
  }

  function Tagged(k: Kind, rs: seq<seq<byte>>): (recs: seq<Record>)
    ensures |recs| == |rs|
  {
    if rs == [] then [] else [Record(k, rs[0])] + Tagged(k, rs[1..])
  }

  lemma RecordFlag(k: Kind, t: Tables, r: seq<byte>, dir: byte, ch: nat)
    requires |r| == RecordSize(k) && ApplyRecord(k, t, r).1 == OK && dir <= DIR_RX && ch < NUM_CHANNELS
    ensures Flag(ApplyRecord(k, t, r).0, dir, ch) == LastRecord([Record(k, r)], dir, ch, Flag(t, dir, ch))
  {
    assert [Record(k, r)][..0] == [];
  }

  lemma {:induction false} RecordsFlag(k: Kind, t: Tables, rs: seq<seq<byte>>, dir: byte, ch: nat)
    requires Sized(k, rs) && dir <= DIR_RX && ch < NUM_CHANNELS && GoodRecords(k, t, rs) == |rs|
    ensures Flag(AfterRecords(k, t, rs), dir, ch) == LastRecord(Tagged(k, rs), dir, ch, Flag(t, dir, ch))
    decreases rs
  {
    if rs != [] {
      var t1 := ApplyRecord(k, t, rs[0]).0;
      RecordFlag(k, t, rs[0], dir, ch);
      RecordsFlag(k, t1, rs[1..], dir, ch);
      LastRecordConcat([Record(k, rs[0])], Tagged(k, rs[1..]), dir, ch, Flag(t, dir, ch));
    }
  }

  /** The records of a payload that are applied. */
  function Good(k: Kind, t: Tables, payload: seq<byte>): (rs: seq<seq<byte>>)
    ensures Sized(k, rs)
  {
    var rs := Records(k, payload);
    rs[..GoodRecords(k, t, rs)]
  }

  lemma {:induction false} GoodAllGood(k: Kind, t: Tables, rs: seq<seq<byte>>)
    requires Sized(k, rs)
    ensures var n := GoodRecords(k, t, rs); GoodRecords(k, t, rs[..n]) == n
    decreases rs
  {
    if rs != [] && ApplyRecord(k, t, rs[0]).1 == OK {
      var t1 := ApplyRecord(k, t, rs[0]).0;
      GoodAllGood(k, t1, rs[1..]);
      assert rs[..GoodRecords(k, t, rs)][1..] == rs[1..][..GoodRecords(k, t1, rs[1..])];
    }
  }

  /** After a batch command a channel's flag is what the last record applied to it says. */
  lemma CommandFlag(k: Kind, t: Tables, payload: seq<byte>, dir: byte, ch: nat)
    requires Mirror(t) && dir <= DIR_RX && ch < NUM_CHANNELS
    ensures Flag(Command(k, t, payload).tables, dir, ch)
         == LastRecord(Tagged(k, Good(k, t, payload)), dir, ch, Flag(t, dir, ch))
  {
    var rs := Records(k, payload);
    BatchAppliesPrefix(k, t, payload, [0, 0]);
    GoodAllGood(k, t, rs);
    RecordsFlag(k, t, Good(k, t, payload), dir, ch);
  }
}
