/** The nested-TLV capability descriptor of components/lccore/capabilities.c: what its builder
    writes, byte by byte with back-patched lengths, against a grammar of TLV trees and the
    parser that inverts it. */
module Capabilities {
  import opened Bytes
  import opened Options
  import Comm
  import CommSession

  const BLOB_MAX := 256
  const TLV_HEADER := 3

  const TAG_BOARD_INFO := 0x01
  const TAG_PORT_GROUP := 0x02
  const BOARD_DISPLAY_NAME := 0x01
  const BOARD_ID := 0x02
  const KIND_DISCRETE := 0x02
  const KIND_HID_AXIS := 0x05
  const KIND_HID_BUTTON := 0x06
  const GROUP_LABEL := 0x01
  const DISCRETE_OUT_DRIVER := 0x10
  const OUT_DRIVER_RELAY := 0x00
  const GROUP_HEAD := 14

  const HID_NUM_AXES := 8
  const HID_NUM_BUTTONS := 32

  // ---- TLV trees and their encoding ------------------------------------------------------

  /** A plain value, or a value of fixed leading fields and nested TLVs. */
  datatype Tlv = Leaf(tag: byte, value: seq<byte>) | Group(tag: byte, head: seq<byte>, kids: seq<Tlv>)

  /** The two length bytes, low one first. */
  function Length(n: nat): (s: seq<byte>)
    ensures |s| == 2
  {
    [n % 256, n / 256 % 256]
  }

  function Encode(t: Tlv): seq<byte> {
    match t
    case Leaf(tag, value) => [tag] + Length(|value|) + value
    case Group(tag, head, kids) => [tag] + Length(|head| + |EncodeAll(kids)|) + head + EncodeAll(kids)
  }

  function EncodeAll(ts: seq<Tlv>): seq<byte> {
    if ts == [] then [] else Encode(ts[0]) + EncodeAll(ts[1..])
  }

  // ---- the builder on values -----------------------------------------------------------------

  /** The bytes written so far, and the sticky flag. */
  datatype Builder = Builder(data: seq<byte>, ok: bool)

  const EMPTY := Builder([], true)

  function PutU8(b: Builder, v: byte): Builder {
    if !b.ok || |b.data| >= BLOB_MAX then b.(ok := false) else b.(data := b.data + [v])
  }

  /** put_u16 and put_u32: one put_u8 after another. */
  function PutEach(b: Builder, s: seq<byte>): Builder
    decreases s
  {
    if s == [] then b else PutEach(PutU8(b, s[0]), s[1..])
  }

  function PutBytes(b: Builder, s: seq<byte>): Builder {
    if !b.ok || |s| > BLOB_MAX - |b.data| then b.(ok := false) else b.(data := b.data + s)
  }

  function Begin(b: Builder, tag: byte): Builder {
    PutEach(b, [tag, 0, 0])
  }

  /** The length is patched in front of the value that starts at `start`. */
  function End(b: Builder, start: nat): Builder {
    if !b.ok || start < TLV_HEADER || start > |b.data| then b.(ok := false)
    else
      var n := |b.data| - start;
      b.(data := b.data[start - 2 := Length(n)[0]][start - 1 := Length(n)[1]])
  }

  /** A TLV tree emitted with matched begin_tlv and end_tlv. */
  function Emit(b: Builder, t: Tlv): Builder
    decreases t
  {
    match t
    case Leaf(tag, value) =>
      var b1 := Begin(b, tag);
      End(PutBytes(b1, value), |b1.data|)
    case Group(tag, head, kids) =>
      var b1 := Begin(b, tag);
      End(EmitAll(PutEach(b1, head), kids), |b1.data|)
  }

  function EmitAll(b: Builder, ts: seq<Tlv>): Builder
    decreases ts
  {
    if ts == [] then b else EmitAll(Emit(b, ts[0]), ts[1..])
  }

  // ---- what the builder writes -----------------------------------------------------------------

  /** `r` is `b` with `s` appended, or has failed because `s` does not fit; either way nothing
      written before is changed and the buffer is not overrun. */
  predicate Appended(b: Builder, s: seq<byte>, r: Builder) {
    && (r.ok <==> b.ok && |b.data| + |s| <= 256)
    && (r.ok ==> r.data == b.data + s)
    && |r.data| <= BLOB_MAX
    && b.data <= r.data
  }

  lemma {:induction false} PutEachAppends(b: Builder, s: seq<byte>)
    requires |b.data| <= BLOB_MAX
    ensures Appended(b, s, PutEach(b, s))
    decreases s
  {
    if s == [] {
      assert b.data + s == b.data;
    } else {
      PutEachAppends(PutU8(b, s[0]), s[1..]);
      if b.ok && |b.data| < BLOB_MAX {
        assert b.data + s == b.data + [s[0]] + s[1..];
      }
    }
  }

  lemma AppendedTwice(b: Builder, s: seq<byte>, r: Builder, t: seq<byte>, q: Builder)
    requires Appended(b, s, r) && Appended(r, t, q)
    ensures Appended(b, s + t, q)
  {
    if q.ok {
      assert b.data + s + t == b.data + (s + t);
    }
  }

  /** Closing a TLV turns the placeholder in front of its value into the length. */
  lemma Patched(b: Builder, tag: byte, value: seq<byte>, q: Builder)
    requires |b.data| <= BLOB_MAX && Appended(b, [tag, 0, 0] + value, q)
    ensures Appended(b, [tag] + Length(|value|) + value, End(q, |Begin(b, tag).data|))
  {
    PutEachAppends(b, [tag, 0, 0]);
    var at := |Begin(b, tag).data|;
    if q.ok {
      assert |q.data| - at == |value|;
      assert End(q, at).data == b.data + ([tag] + Length(|value|) + value);
    }
  }

  /** Every tree, emitted anywhere in the buffer: the result is the encoding appended exactly
      when it fits, and a failure once set stays set. */
  lemma {:induction false} EmitAppends(b: Builder, t: Tlv)
    requires |b.data| <= BLOB_MAX
    ensures Appended(b, Encode(t), Emit(b, t))
    decreases t
  {
    PutEachAppends(b, [t.tag, 0, 0]);
    var b1 := Begin(b, t.tag);
    match t
    case Leaf(tag, value) =>
      AppendedTwice(b, [tag, 0, 0], b1, value, PutBytes(b1, value));
      Patched(b, tag, value, PutBytes(b1, value));
    case Group(tag, head, kids) =>
      var b2 := PutEach(b1, head);
      PutEachAppends(b1, head);
      EmitAllAppends(b2, kids);
      AppendedTwice(b1, head, b2, EncodeAll(kids), EmitAll(b2, kids));
      AppendedTwice(b, [tag, 0, 0], b1, head + EncodeAll(kids), EmitAll(b2, kids));
      Patched(b, tag, head + EncodeAll(kids), EmitAll(b2, kids));
      assert [tag] + Length(|head| + |EncodeAll(kids)|) + (head + EncodeAll(kids)) == Encode(t);
  }

  lemma {:induction false} EmitAllAppends(b: Builder, ts: seq<Tlv>)
    requires |b.data| <= BLOB_MAX
    ensures Appended(b, EncodeAll(ts), EmitAll(b, ts))
    decreases ts
  {
    if ts == [] {
      assert b.data + EncodeAll(ts) == b.data;
    } else {
      EmitAppends(b, ts[0]);
      EmitAllAppends(Emit(b, ts[0]), ts[1..]);
      AppendedTwice(b, Encode(ts[0]), Emit(b, ts[0]), EncodeAll(ts[1..]), EmitAll(b, ts));
    }
  }

  // ---- the parser ------------------------------------------------------------------------------------

  /** Which tags hold nested TLVs at a level, behind how many leading bytes. */
  datatype Schema = Schema(nested: map<byte, Nested>)
  datatype Nested = Nested(head: nat, inner: Schema)

  function Parse(s: seq<byte>, sch: Schema): Option<seq<Tlv>>
    decreases |s|, 0
  {
    if s == [] then Some([])
    else if |s| < TLV_HEADER || |s| < TLV_HEADER + FromLe16(s[1..3]) then None
    else
      var end := TLV_HEADER + FromLe16(s[1..3]);
      var first, rest := ParseValue(s[0], s[TLV_HEADER..end], sch), Parse(s[end..], sch);
      if first.None? || rest.None? then None else Some([first.value] + rest.value)
  }

  function ParseValue(tag: byte, value: seq<byte>, sch: Schema): Option<Tlv>
    decreases |value|, 1
  {
    if tag !in sch.nested then Some(Leaf(tag, value))
    else
      var n := sch.nested[tag];
      if |value| < n.head then None
      else
        var kids := Parse(value[n.head..], n.inner);
        if kids.None? then None else Some(Group(tag, value[..n.head], kids.value))
  }

  predicate Shaped(t: Tlv, sch: Schema)
    decreases t
  {
    match t
    case Leaf(tag, _) => tag !in sch.nested
    case Group(tag, head, kids) =>
      tag in sch.nested && |head| == sch.nested[tag].head && ShapedAll(kids, sch.nested[tag].inner)
  }

  predicate ShapedAll(ts: seq<Tlv>, sch: Schema)
    decreases ts
  {
    ts == [] || (Shaped(ts[0], sch) && ShapedAll(ts[1..], sch))
  }

  function Body(t: Tlv): seq<byte> {
    match t
    case Leaf(_, value) => value
    case Group(_, head, kids) => head + EncodeAll(kids)
  }

  lemma EncodeIsHeaderBody(t: Tlv)
    ensures Encode(t) == [t.tag] + Length(|Body(t)|) + Body(t)
  {
  }

  lemma FirstTlv(tag: byte, body: seq<byte>, rest: seq<byte>)
    requires |body| < 0x1_0000
    ensures var s := [tag] + Length(|body|) + body + rest;
            && |s| >= TLV_HEADER + |body| && s[0] == tag && FromLe16(s[1..3]) == |body|
            && s[TLV_HEADER..TLV_HEADER + |body|] == body && s[TLV_HEADER + |body|..] == rest
  {
    var s := [tag] + Length(|body|) + body + rest;
    assert s[1..3] == Length(|body|);
  }

  /** Parsing undoes encoding, for every tree of the schema's shape that length fields can hold. */
  lemma {:induction false} ParseInvertsEncode(ts: seq<Tlv>, sch: Schema)
    requires ShapedAll(ts, sch) && |EncodeAll(ts)| < 0x1_0000
    ensures Parse(EncodeAll(ts), sch) == Some(ts)
    decreases ts
  {
    if ts != [] {
      var body, rest := Body(ts[0]), EncodeAll(ts[1..]);
      EncodeIsHeaderBody(ts[0]);
      FirstTlv(ts[0].tag, body, rest);
      ParseInvertsEncode(ts[1..], sch);
      ValueInvertsBody(ts[0], sch);
      assert EncodeAll(ts) == [ts[0].tag] + Length(|body|) + body + rest;
      assert ts == [ts[0]] + ts[1..];
    }
  }

  lemma {:induction false} ValueInvertsBody(t: Tlv, sch: Schema)
    requires Shaped(t, sch) && |Body(t)| < 0x1_0000
    ensures ParseValue(t.tag, Body(t), sch) == Some(t)
    decreases t
  {
    if t.Group? {
      ParseInvertsEncode(t.kids, sch.nested[t.tag].inner);
    }
  }

  /** And encoding undoes parsing: no two descriptors parse to the same tree. */
  lemma {:induction false} EncodeInvertsParse(s: seq<byte>, sch: Schema)
    requires Parse(s, sch).Some?
    ensures EncodeAll(Parse(s, sch).value) == s && ShapedAll(Parse(s, sch).value, sch)
    decreases |s|, 0
  {
    if s != [] {
      var end := TLV_HEADER + FromLe16(s[1..3]);
      var first, rest := ParseValue(s[0], s[TLV_HEADER..end], sch).value, Parse(s[end..], sch).value;
      EncodeInvertsParse(s[end..], sch);
      BodyInvertsValue(s[0], s[TLV_HEADER..end], sch);
      EncodeIsHeaderBody(first);
      LengthInvertsLe16(s[1..3]);
      Reassembled(s, end);
      FirstOfAll(first, rest, sch);
    }
  }

  lemma FirstOfAll(t: Tlv, ts: seq<Tlv>, sch: Schema)
    ensures EncodeAll([t] + ts) == Encode(t) + EncodeAll(ts)
    ensures ShapedAll([t] + ts, sch) == (Shaped(t, sch) && ShapedAll(ts, sch))
  {
    assert ([t] + ts)[1..] == ts;
  }

  lemma LengthInvertsLe16(s: seq<byte>)
    requires |s| == 2
    ensures Length(FromLe16(s)) == s
  {
    assert FromLe16(s) / 256 == s[1] && FromLe16(s) % 256 == s[0];
  }

  lemma Reassembled(s: seq<byte>, end: nat)
    requires TLV_HEADER <= end <= |s|
    ensures s == [s[0]] + s[1..3] + s[TLV_HEADER..end] + s[end..]
  {
  }

  lemma {:induction false} BodyInvertsValue(tag: byte, value: seq<byte>, sch: Schema)
    requires ParseValue(tag, value, sch).Some?
    ensures var t := ParseValue(tag, value, sch).value; t.tag == tag && Body(t) == value && Shaped(t, sch)
    decreases |value|, 1
  {
    if tag in sch.nested {
      var n := sch.nested[tag];
      EncodeInvertsParse(value[n.head..], n.inner);
      assert value == value[..n.head] + value[n.head..];
    }
  }

  // ---- the card's descriptor ------------------------------------------------------------------------------

  function Ascii(s: string): (b: seq<byte>)
    ensures |b| == |s|
  {
    seq(|s|, i requires 0 <= i < |s| => s[i] as int % 256)
  }

  function Board(): Tlv {
    Group(TAG_BOARD_INFO, [], [Leaf(BOARD_DISPLAY_NAME, Ascii("AES ESP32 RS-485 discrete I/O + USB HID")),
                               Leaf(BOARD_ID, Ascii("AES-ESP-M31-HID"))])
  }

  function Head(kind: byte, inputs: u32, outputs: u32): seq<byte> {
    [kind, 0] + Le32(inputs) + Le32(outputs) + Le32(0)
  }

  /** The fields in front of a group's label: kind, a zero byte, the inputs, the outputs, and
      four zero bytes. */
  lemma HeadBytes(kind: byte, inputs: u32, outputs: u32)
    ensures var h := Head(kind, inputs, outputs);
            && |h| == 14 && h[0] == kind && h[1] == 0 && FromLe32(h[2..6]) == inputs && FromLe32(h[6..10]) == outputs
            && h[10] == h[11] == h[12] == h[13] == 0
  {
    var h := Head(kind, inputs, outputs);
    assert h[2..6] == Le32(inputs) && h[6..10] == Le32(outputs) && h[10..] == Le32(0);
    Le32RoundTrip(inputs);
    Le32RoundTrip(outputs);
    assert h[10..][0] == h[10] && h[10..][1] == h[11] && h[10..][2] == h[12] && h[10..][3] == h[13];
  }

  function Ports(kind: byte, inputs: u32, outputs: u32, name: string, more: seq<Tlv>): Tlv {
    Group(TAG_PORT_GROUP, Head(kind, inputs, outputs), [Leaf(GROUP_LABEL, Ascii(name))] + more)
  }

  function DiscretePorts(inputs: u16, outputs: u16): seq<Tlv> {
    if inputs == 0 && outputs == 0 then []
    else [Ports(KIND_DISCRETE, inputs, outputs, "RS-485 relay I/O", [Leaf(DISCRETE_OUT_DRIVER, [OUT_DRIVER_RELAY])])]
  }

  function HidPorts(): seq<Tlv> {
    [Ports(KIND_HID_AXIS, 0, HID_NUM_AXES, "USB HID axes", []),
     Ports(KIND_HID_BUTTON, 0, HID_NUM_BUTTONS, "USB HID buttons", [])]
  }

  function Tree(inputs: u16, outputs: u16): seq<Tlv> {
    [Board()] + DiscretePorts(inputs, outputs) + HidPorts()
  }

  const PREFIX: seq<byte> := [Comm.CAPS_VERSION, 0, 0, 0]

  /** What a gateway reads: the version, and per port group its kind and counts. */
  datatype PortCount = PortCount(kind: byte, inputs: u32, outputs: u32)

  function PortSchema(): Schema {
    var leaves := Schema(map[]);
    Schema(map[TAG_BOARD_INFO := Nested(0, leaves), TAG_PORT_GROUP := Nested(GROUP_HEAD, leaves)])
  }

  function Counts(ts: seq<Tlv>): seq<PortCount> {
    if ts == [] then []
    else
      var t := ts[0];
      (if t.Group? && t.tag == TAG_PORT_GROUP && |t.head| == GROUP_HEAD
       then [PortCount(t.head[0], FromLe32(t.head[2..6]), FromLe32(t.head[6..10]))] else []) + Counts(ts[1..])
  }

  function ReadDescriptor(blob: seq<byte>): Option<seq<PortCount>> {
    if |blob| < 4 || blob[0] != Comm.CAPS_VERSION then None
    else match Parse(blob[4..], PortSchema())
      case None => None
      case Some(ts) => Some(Counts(ts))
  }

  function Advertised(inputs: u16, outputs: u16): seq<PortCount> {
    (if inputs == 0 && outputs == 0 then [] else [PortCount(KIND_DISCRETE, inputs, outputs)])
    + [PortCount(KIND_HID_AXIS, 0, HID_NUM_AXES), PortCount(KIND_HID_BUTTON, 0, HID_NUM_BUTTONS)]
  }

  lemma {:induction false} EncodeConcat(a: seq<Tlv>, b: seq<Tlv>)
    ensures EncodeAll(a + b) == EncodeAll(a) + EncodeAll(b)
    decreases a
  {
    if a == [] {
      assert a + b == b;
    } else {
      assert (a + b)[1..] == a[1..] + b;
      EncodeConcat(a[1..], b);
    }
  }

  lemma PortsSize(kind: byte, inputs: u32, outputs: u32, name: string, more: seq<Tlv>)
    ensures |Encode(Ports(kind, inputs, outputs, name, more))| == 20 + |name| + |EncodeAll(more)|
    ensures |Head(kind, inputs, outputs)| == GROUP_HEAD
    ensures ShapedAll(more, Schema(map[])) ==> Shaped(Ports(kind, inputs, outputs, name, more), PortSchema())
  {
    var kids := [Leaf(GROUP_LABEL, Ascii(name))] + more;
    assert kids[1..] == more;
    assert EncodeAll(kids) == Encode(kids[0]) + EncodeAll(more);
  }

  lemma BoardRead()
    ensures |EncodeAll([Board()])| == 63 && ShapedAll([Board()], PortSchema()) && Counts([Board()]) == []
  {
    var kids := Board().kids;
    assert [Board()][1..] == [] && kids[1..] == [kids[1]] && kids[1..][1..] == [];
    assert EncodeAll(kids[1..]) == Encode(kids[1]) + [];
    assert EncodeAll([Board()]) == Encode(Board()) + [];
    assert ShapedAll(kids[1..], Schema(map[]));
  }

  /** The discrete group reports the counts it was given. */
  lemma DiscretePortsRead(inputs: u16, outputs: u16)
    ensures |EncodeAll(DiscretePorts(inputs, outputs))| <= 40
    ensures ShapedAll(DiscretePorts(inputs, outputs), PortSchema())
    ensures Counts(DiscretePorts(inputs, outputs))
         == if inputs == 0 && outputs == 0 then [] else [PortCount(KIND_DISCRETE, inputs, outputs)]
  {
    var driver := [Leaf(DISCRETE_OUT_DRIVER, [OUT_DRIVER_RELAY])];
    assert driver[1..] == [];
    assert EncodeAll(driver) == Encode(driver[0]) + [];
    PortsSize(KIND_DISCRETE, inputs, outputs, "RS-485 relay I/O", driver);
    OneGroup(KIND_DISCRETE, inputs, outputs, "RS-485 relay I/O", driver);
  }

  /** A list of one port group. */
  lemma OneGroup(kind: byte, inputs: u32, outputs: u32, name: string, more: seq<Tlv>)
    requires ShapedAll(more, Schema(map[]))
    ensures var ts := [Ports(kind, inputs, outputs, name, more)];
            && |EncodeAll(ts)| == 20 + |name| + |EncodeAll(more)|
            && Counts(ts) == [PortCount(kind, inputs, outputs)] && ShapedAll(ts, PortSchema())
  {
    var ts := [Ports(kind, inputs, outputs, name, more)];
    assert ts[1..] == [];
    assert EncodeAll(ts) == Encode(ts[0]) + [];
    PortsSize(kind, inputs, outputs, name, more);
    Le32RoundTrip(inputs);
    Le32RoundTrip(outputs);
    var head := Head(kind, inputs, outputs);
    assert head[2..6] == Le32(inputs) && head[6..10] == Le32(outputs);
    assert ShapedAll(ts[1..], PortSchema());
  }

  lemma {:induction false} CountsConcat(a: seq<Tlv>, b: seq<Tlv>)
    ensures Counts(a + b) == Counts(a) + Counts(b)
    ensures ShapedAll(a, PortSchema()) && ShapedAll(b, PortSchema()) ==> ShapedAll(a + b, PortSchema())
    decreases a
  {
    if a == [] {
      assert a + b == b;
    } else {
      assert (a + b)[1..] == a[1..] + b;
      CountsConcat(a[1..], b);
    }
  }

  lemma Joined(a: seq<Tlv>, b: seq<Tlv>)
    requires ShapedAll(a, PortSchema()) && ShapedAll(b, PortSchema())
    ensures |EncodeAll(a + b)| == |EncodeAll(a)| + |EncodeAll(b)|
    ensures Counts(a + b) == Counts(a) + Counts(b) && ShapedAll(a + b, PortSchema())
  {
    EncodeConcat(a, b);
    CountsConcat(a, b);
  }

  /** For all counts the whole tree fits the buffer, has the schema's shape, and reports them. */
  lemma TreeReads(inputs: u16, outputs: u16)
    ensures |EncodeAll(Tree(inputs, outputs))| <= BLOB_MAX - |PREFIX|
    ensures ShapedAll(Tree(inputs, outputs), PortSchema())
    ensures Counts(Tree(inputs, outputs)) == Advertised(inputs, outputs)
  {
    var board, discrete := [Board()], DiscretePorts(inputs, outputs);
    BoardRead();
    DiscretePortsRead(inputs, outputs);
    HidPortsRead();
    Joined(board, discrete);
    Joined(board + discrete, HidPorts());
    assert Tree(inputs, outputs) == board + discrete + HidPorts();
  }

  lemma HidPortsRead()
    ensures |EncodeAll(HidPorts())| == 67 && ShapedAll(HidPorts(), PortSchema())
    ensures Counts(HidPorts()) == [PortCount(KIND_HID_AXIS, 0, HID_NUM_AXES),
                                   PortCount(KIND_HID_BUTTON, 0, HID_NUM_BUTTONS)]
  {
    OneGroup(KIND_HID_AXIS, 0, HID_NUM_AXES, "USB HID axes", []);
    OneGroup(KIND_HID_BUTTON, 0, HID_NUM_BUTTONS, "USB HID buttons", []);
    Joined([HidPorts()[0]], [HidPorts()[1]]);
    assert HidPorts() == [HidPorts()[0]] + [HidPorts()[1]];
  }

  /** The blob capabilities_init leaves behind, as the builder calls make it. */
  function Built(inputs: u16, outputs: u16): Builder {
    EmitAll(PutEach(EMPTY, PREFIX), Tree(inputs, outputs))
  }

  /** For all 16-bit counts: the builder succeeds, and a reader finds exactly the counts. */
  lemma BuildSucceeds(inputs: u16, outputs: u16)
    ensures var b := Built(inputs, outputs);
            && b.ok && |b.data| <= BLOB_MAX && b.data == PREFIX + EncodeAll(Tree(inputs, outputs))
            && ReadDescriptor(b.data) == Some(Advertised(inputs, outputs))
  {
    TreeReads(inputs, outputs);
    PutEachAppends(EMPTY, PREFIX);
    var b0 := PutEach(EMPTY, PREFIX);
    assert EMPTY.data + PREFIX == PREFIX;
    EmitAllAppends(b0, Tree(inputs, outputs));
    var data := Built(inputs, outputs).data;
    assert data[4..] == EncodeAll(Tree(inputs, outputs));
    ParseInvertsEncode(Tree(inputs, outputs), PortSchema());
  }

  /** From boot to gateway: what chunked GET_CAPABILITIES requests bring back reads as the
      counts the card was built with. */
  lemma GatewayReadsCounts(card: Comm.Card, core: Comm.Core, id: byte, ios: nat -> Comm.Io, inputs: u16, outputs: u16)
    requires card.personality == Comm.App && |Built(inputs, outputs).data| < 0x1_0000
    requires card.caps == Some(Built(inputs, outputs).data)
    ensures ReadDescriptor(CommSession.Fetch(card, core, id, 0, ios)) == Some(Advertised(inputs, outputs))
  {
    CommSession.FetchIsDescriptor(card, core, id, 0, ios);
    BuildSucceeds(inputs, outputs);
    assert card.caps.value[0..] == card.caps.value;
  }
}
