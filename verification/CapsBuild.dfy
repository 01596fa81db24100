/** The builder of components/lccore/capabilities.c as written: bytes put one at a time, and
    lengths patched in place. Each method does what the function of the same name in
    Capabilities says. */
module CapsBuild {
  import opened Bytes
  import opened Options
  import opened Capabilities

  class CapsBuilder {
    const data: array<byte>
    var len: nat
    var ok: bool

    ghost predicate Valid()
      reads this
    {
      data.Length == BLOB_MAX && len <= BLOB_MAX
    }

    function View(): Builder
      reads this, data
      requires len <= data.Length
    {
      Builder(data[..len], ok)
    }

    constructor ()
      ensures Valid() && View() == EMPTY && fresh(data)
    {
      data := new byte[BLOB_MAX](_ => 0);
      len, ok := 0, true;
    }

    /** put_u8 */
    method PutU8(v: byte)
      requires Valid()
      modifies this, data
      ensures Valid() && View() == Capabilities.PutU8(old(View()), v)
    {
      if !ok || len >= data.Length {
        ok := false;
        return;
      }
      data[len] := v;
      len := len + 1;
    }

    /** put_u16 and put_u32 */
    method PutEach(s: seq<byte>)
      requires Valid()
      modifies this, data
      ensures Valid() && View() == Capabilities.PutEach(old(View()), s)
    {
      for i := 0 to |s|
        invariant Valid() && Capabilities.PutEach(View(), s[i..]) == Capabilities.PutEach(old(View()), s)
      {
        PutU8(s[i]);
      }
    }

    /** put_bytes */
    method PutBytes(s: seq<byte>)
      requires Valid()
      modifies this, data
      ensures Valid() && View() == Capabilities.PutBytes(old(View()), s)
    {
      if !ok || |s| > data.Length - len {
        ok := false;
        return;
      }
      forall i | 0 <= i < |s| {
        data[len + i] := s[i];
      }
      len := len + |s|;
    }

    /** begin_tlv: the offset of the value. */
    method BeginTlv(tag: byte) returns (start: nat)
      requires Valid()
      modifies this, data
      ensures Valid() && View() == Begin(old(View()), tag) && start == |View().data|
    {
      ghost var b := View();
      PutU8(tag);
      PutEach([0, 0]);
      start := len;
      assert [tag][1..] == [] && [tag] + [0, 0] == [tag, 0, 0];
      PutEachConcat(b, [tag], [0, 0]);
    }

    /** end_tlv */
    method EndTlv(start: nat)
      requires Valid()
      modifies this, data
      ensures Valid() && View() == End(old(View()), start)
    {
      if !ok || start < TLV_HEADER || start > len {
        ok := false;
        return;
      }
      var n := len - start;
      data[start - 2] := n % 256;
      data[start - 1] := n / 256 % 256;
    }

    /** put_string_tlv; every string of the card is far below 64 KiB. */
    method PutLeaf(tag: byte, value: seq<byte>)
      requires Valid()
      modifies this, data
      ensures Valid() && View() == Emit(old(View()), Leaf(tag, value))
    {
      var start := BeginTlv(tag);
      PutBytes(value);
      EndTlv(start);
    }

    /** begin_group: everything up to and including the label. */
    method BeginGroup(kind: byte, inputs: u32, outputs: u32, name: string) returns (start: nat)
      requires Valid()
      modifies this, data
      ensures Valid()
      ensures View() == Emit(Capabilities.PutEach(Begin(old(View()), TAG_PORT_GROUP), Head(kind, inputs, outputs)),
                             Leaf(GROUP_LABEL, Ascii(name)))
      ensures start == |Begin(old(View()), TAG_PORT_GROUP).data|
    {
      start := BeginTlv(TAG_PORT_GROUP);
      ghost var b := View();
      PutU8(kind);
      PutU8(0);
      PutEach(Le32(inputs));
      PutEach(Le32(outputs));
      PutEach(Le32(0));
      PutFields(b, [kind, 0], Le32(inputs), Le32(outputs), Le32(0));
      PutLeaf(GROUP_LABEL, Ascii(name));
    }

    /** The whole group of a plane without further fields. */
    method PlainGroup(kind: byte, outputs: u32, name: string)
      requires Valid()
      modifies this, data
      ensures Valid() && View() == Emit(old(View()), Ports(kind, 0, outputs, name, []))
    {
      GroupInOrder(View(), Head(kind, 0, outputs), Leaf(GROUP_LABEL, Ascii(name)), []);
      var start := BeginGroup(kind, 0, outputs, name);
      EndTlv(start);
    }

    method DiscreteGroup(inputs: u16, outputs: u16)
      requires Valid()
      modifies this, data
      ensures Valid() && View() == EmitAll(old(View()), DiscretePorts(inputs, outputs))
    {
      if inputs > 0 || outputs > 0 {
        var name, driver := "RS-485 relay I/O", Leaf(DISCRETE_OUT_DRIVER, [OUT_DRIVER_RELAY]);
        ghost var head := Head(KIND_DISCRETE, inputs, outputs);
        GroupInOrder(View(), head, Leaf(GROUP_LABEL, Ascii(name)), [driver]);
        OneAfterAnother(Emit(Capabilities.PutEach(Begin(View(), TAG_PORT_GROUP), head),
                             Leaf(GROUP_LABEL, Ascii(name))), driver, []);
        OneAfterAnother(View(), Ports(KIND_DISCRETE, inputs, outputs, name, [driver]), []);
        var start := BeginGroup(KIND_DISCRETE, inputs, outputs, name);
        PutLeaf(DISCRETE_OUT_DRIVER, [OUT_DRIVER_RELAY]);
        EndTlv(start);
      }
    }

    method BoardGroup()
      requires Valid()
      modifies this, data
      ensures Valid() && View() == Emit(old(View()), Board())
    {
      var start := BeginTlv(TAG_BOARD_INFO);
      PutLeaf(BOARD_DISPLAY_NAME, Ascii("AES ESP32 RS-485 discrete I/O + USB HID"));
      PutLeaf(BOARD_ID, Ascii("AES-ESP-M31-HID"));
      EndTlv(start);
    }
  }

  /** capabilities_init of the application build: the descriptor, None when it was not built. */
  method Init(inputs: u16, outputs: u16) returns (blob: Option<seq<byte>>)
    ensures blob == Some(Built(inputs, outputs).data)
  {
    var b := new CapsBuilder();
    b.PutEach(PREFIX);
    b.BoardGroup();
    b.DiscreteGroup(inputs, outputs);
    b.PlainGroup(KIND_HID_AXIS, HID_NUM_AXES, "USB HID axes");
    b.PlainGroup(KIND_HID_BUTTON, HID_NUM_BUTTONS, "USB HID buttons");
    TreeInOrder(Capabilities.PutEach(EMPTY, PREFIX), inputs, outputs);
    BuildSucceeds(inputs, outputs);
    if !b.ok || b.len == 0 {
      return None;
    }
    blob := Some(b.data[..b.len]);
  }

  lemma {:induction false} PutEachConcat(b: Builder, s: seq<byte>, t: seq<byte>)
    ensures Capabilities.PutEach(b, s + t) == Capabilities.PutEach(Capabilities.PutEach(b, s), t)
    decreases s
  {
    if s == [] {
      assert s + t == t;
    } else {
      assert (s + t)[1..] == s[1..] + t;
      PutEachConcat(Capabilities.PutU8(b, s[0]), s[1..], t);
    }
  }

  lemma PutFields(b: Builder, s: seq<byte>, t: seq<byte>, u: seq<byte>, v: seq<byte>)
    ensures Capabilities.PutEach(b, s + t + u + v)
         == Capabilities.PutEach(Capabilities.PutEach(Capabilities.PutEach(Capabilities.PutEach(b, s), t), u), v)
  {
    PutEachConcat(b, s + t + u, v);
    PutEachConcat(b, s + t, u);
    PutEachConcat(b, s, t);
  }

  lemma {:induction false} EmitAllConcat(b: Builder, s: seq<Tlv>, t: seq<Tlv>)
    ensures EmitAll(b, s + t) == EmitAll(EmitAll(b, s), t)
    decreases s
  {
    if s == [] {
      assert s + t == t;
    } else {
      assert (s + t)[1..] == s[1..] + t;
      EmitAllConcat(Emit(b, s[0]), s[1..], t);
    }
  }

  lemma TreeInOrder(b: Builder, inputs: u16, outputs: u16)
    ensures var axes, buttons := HidPorts()[0], HidPorts()[1];
            EmitAll(b, Tree(inputs, outputs))
              == Emit(Emit(EmitAll(Emit(b, Board()), DiscretePorts(inputs, outputs)), axes), buttons)
  {
    var axes, buttons := HidPorts()[0], HidPorts()[1];
    EmitAllConcat(b, [Board()] + DiscretePorts(inputs, outputs), [axes, buttons]);
    EmitAllConcat(b, [Board()], DiscretePorts(inputs, outputs));
    OneAfterAnother(b, Board(), []);
    var b1 := EmitAll(Emit(b, Board()), DiscretePorts(inputs, outputs));
    OneAfterAnother(b1, axes, [buttons]);
    OneAfterAnother(Emit(b1, axes), buttons, []);
    assert [axes] + [buttons] == [axes, buttons];
  }

  lemma GroupInOrder(b: Builder, head: seq<byte>, first: Tlv, more: seq<Tlv>)
    ensures var b1 := Begin(b, TAG_PORT_GROUP);
            Emit(b, Group(TAG_PORT_GROUP, head, [first] + more))
              == End(EmitAll(Emit(Capabilities.PutEach(b1, head), first), more), |b1.data|)
  {
    OneAfterAnother(Capabilities.PutEach(Begin(b, TAG_PORT_GROUP), head), first, more);
  }

  lemma OneAfterAnother(b: Builder, t: Tlv, ts: seq<Tlv>)
    ensures EmitAll(b, [t] + ts) == EmitAll(Emit(b, t), ts)
    ensures ts == [] ==> EmitAll(b, [t]) == Emit(b, t)
  {
    assert ([t] + ts)[1..] == ts;
    assert [t][1..] == [];
  }
}
