/** The firmware upload of the recovery build as a state machine on values:
    components/lccore/fwupdate_core.c over the flash and cipher port main/fwup_port.c.
    The outcome of every esp_ota and AES call is an input. */
module FwUpdate {
  import opened Bytes
  import opened Options
  import opened Cbc
  import Fletcher32

  const CHUNK_SIZE := 240
  const MIN_SIZE := 1024
  const TIMEOUT_MS := 2000
  const FINISH := 0xFFFF_FFFF
  const START_LEN := 28
  /** ota_0 in partitions.csv. */
  const PARTITION_SIZE := 0x6E_0000

  datatype Status = Ok | Timeout | FwChecksum | FlashBegin | FlashProgram | SizeNotMult16 | SizeOutOfRange
                  | PayloadTooLong | IndexNotZeroWhenIdle | PacketLoss | TooManyBytes | SizeDisagree
                  | DataNotFactor16 | WrongState | ImageInvalid | SetBoot | Aes
  {
    /** The code on the wire. */
    function Code(): nat {
      match this
      case Ok => 0 case Timeout => 101 case FwChecksum => 103 case FlashBegin => 105
      case FlashProgram => 106 case SizeNotMult16 => 107 case SizeOutOfRange => 109
      case PayloadTooLong => 110 case IndexNotZeroWhenIdle => 114 case PacketLoss => 115
      case TooManyBytes => 116 case SizeDisagree => 117 case DataNotFactor16 => 118
      case WrongState => 119 case ImageInvalid => 120 case SetBoot => 121 case Aes => 122
    }
  }

  // ---- the port ------------------------------------------------------------------------

  /** `open` and `iv` are the port's own variables. `written` is what esp_ota_write accepted
      since the last esp_ota_begin, `finalized` the image the last esp_ota_end validated. */
  datatype Port = Port(open: bool, iv: Block, written: seq<byte>, finalized: Option<seq<byte>>)

  /** What the platform calls behind the port answer while one packet is handled. */
  datatype Env = Env(partitionFound: bool, otaBegin: bool, otaWrite: bool, otaEnd: bool, setBoot: bool, aesKey: bool,
                     aesCrypt: bool)

  const ALL_GOOD := Env(true, true, true, true, true, true, true)

  function PortAbort(p: Port): Port {
    p.(open := false)
  }

  function PortBegin(p: Port, size: u32, env: Env): (Port, bool) {
    var aborted := PortAbort(p);
    if !env.partitionFound || size > PARTITION_SIZE || !env.otaBegin then (aborted, false)
    else (aborted.(open := true, written := [], finalized := None), true)
  }

  function PortWrite(p: Port, data: seq<byte>, env: Env): (Port, bool) {
    if !p.open || !env.otaWrite then (p, false) else (p.(written := p.written + data), true)
  }

  function PortEnd(p: Port, env: Env): (Port, bool) {
    if !p.open then (p, false)
    else if !env.otaEnd then (p.(open := false, finalized := None), false)
    else (p.(open := false, finalized := Some(p.written)), true)
  }

  function AesStart(p: Port, iv: Block, env: Env): (Port, bool) {
    if env.aesKey then (p.(iv := iv), true) else (p, false)
  }

  /** In-place CBC decryption; the chaining value carries over to the next call. */
  function AesDecrypt(c: Cipher, p: Port, data: seq<byte>, env: Env): (Port, seq<byte>, bool)
    requires Whole(data)
  {
    if env.aesCrypt then (p.(iv := NextIv(p.iv, data)), Decrypt(c, p.iv, data), true) else (p, data, false)
  }

  // ---- the core --------------------------------------------------------------------------

  /** `starts` logs size and checksum of every START that opened an upload; `boots` logs, at
      every set_boot call, the finalized image and the number of the latest such START. */
  datatype Fw = Fw(uploading: bool, firmSize: u32, firmChecksum: u32, bytesCounter: u32, indexPrev: u32,
                   lastRx: u32, status: Status, fletch: Fletcher32.Ctx, port: Port, starts: seq<Start>,
                   boots: seq<BootCall>)
  datatype BootCall = BootCall(image: Option<seq<byte>>, start: int)
  datatype Start = Start(size: u32, checksum: u32)

  function ResetVar(fw: Fw): Fw {
    fw.(uploading := false, bytesCounter := 0, indexPrev := 0, status := Ok, lastRx := 0, fletch := Fletcher32.INIT)
  }

  function SessionReset(fw: Fw): Fw {
    ResetVar(fw.(port := PortAbort(fw.port))).(firmSize := 0)
  }

  function Tick(fw: Fw, now: u32): Fw {
    if fw.uploading && Sub32(now, fw.lastRx) > TIMEOUT_MS then fw.(uploading := false, status := Timeout) else fw
  }

  function HandleStart(fw: Fw, payload: seq<byte>, now: u32, env: Env): (Fw, Status)
    requires |payload| >= START_LEN
  {
    var fw1 := ResetVar(fw).(firmSize := FromLe32(payload[4..8]), firmChecksum := FromLe32(payload[8..12]));
    if fw1.firmSize % 16 != 0 then (fw1, SizeNotMult16)
    else if fw1.firmSize < MIN_SIZE then (fw1, SizeOutOfRange)
    else
      var (p1, keyed) := AesStart(fw1.port, payload[12..28], env);
      if !keyed then (fw1.(port := p1), Aes)
      else
        var (p2, begun) := PortBegin(p1, fw1.firmSize, env);
        if !begun then (fw1.(port := p2), FlashBegin)
        else (fw1.(port := p2, lastRx := now, uploading := true,
                   starts := fw1.starts + [Start(fw1.firmSize, fw1.firmChecksum)]), Ok)
  }

  function HandleIdle(fw: Fw, payload: seq<byte>, now: u32, env: Env): (Fw, Status)
    requires |payload| >= 4
  {
    if FromLe32(payload[..4]) != 0 then (fw, if fw.status != Ok then fw.status else IndexNotZeroWhenIdle)
    else if |payload| < START_LEN then (fw, WrongState)
    else HandleStart(fw, payload, now, env)
  }

  function Finish(fw: Fw, env: Env): (Fw, Status) {
    if fw.bytesCounter != fw.firmSize then (fw, SizeDisagree)
    else if Fletcher32.Final(fw.fletch) != fw.firmChecksum then (fw, FwChecksum)
    else
      var (p1, ended) := PortEnd(fw.port, env);
      if !ended then (fw.(port := p1), ImageInvalid)
      else
        var fw1 := fw.(port := p1, boots := fw.boots + [BootCall(p1.finalized, |fw.starts| - 1)]);
        if !env.setBoot then (fw1, SetBoot) else (fw1.(uploading := false), Ok)
  }

  /** A STEP whose index, length and remaining room were accepted. */
  function HandleData(c: Cipher, fw: Fw, data: seq<byte>, now: u32, env: Env): (Fw, Status)
    requires Whole(data) && |data| <= CHUNK_SIZE
  {
    var (p1, plain, decrypted) := AesDecrypt(c, fw.port, data, env);
    if !decrypted then (fw.(port := p1, uploading := false), Aes)
    else
      var fletch := Fletcher32.Absorb(fw.fletch, plain);
      var (p2, wrote) := PortWrite(p1, plain, env);
      if !wrote then (fw.(port := p2, fletch := fletch, uploading := false), FlashProgram)
      else (fw.(port := p2, fletch := fletch, bytesCounter := Add32(fw.bytesCounter, |data|), lastRx := now), Ok)
  }

  function HandleUpload(c: Cipher, fw: Fw, payload: seq<byte>, now: u32, env: Env): (Fw, Status)
    requires |payload| >= 4
  {
    var index := FromLe32(payload[..4]);
    if fw.status != Ok then (fw.(uploading := false), fw.status)
    else if index == FINISH then
      var (fw1, status) := Finish(fw, env);
      (if status != Ok then ResetVar(fw1) else fw1, status)
    else if index != Add32(fw.indexPrev, 1) then (fw.(uploading := false), PacketLoss)
    else
      var fw1 := fw.(indexPrev := index);
      if fw1.bytesCounter >= fw1.firmSize then (ResetVar(fw1), TooManyBytes)
      else if |payload| - 4 > CHUNK_SIZE then (fw1.(uploading := false), PayloadTooLong)
      else if (|payload| - 4) % 16 != 0 then (fw1.(uploading := false), DataNotFactor16)
      else HandleData(c, fw1, payload[4..], now, env)
  }

  /** fwup_handle(payload, len). */
  function Handle(c: Cipher, fw: Fw, payload: seq<byte>, now: u32, env: Env): (Fw, Status) {
    if |payload| < 4 then (fw, WrongState)
    else if fw.uploading then HandleUpload(c, fw, payload, now, env)
    else HandleIdle(fw, payload, now, env)
  }

  // ---- what an answer means ---------------------------------------------------------------------

  /** A START is accepted exactly when the announced size is whole blocks, at least 1024 bytes
      and no more than the partition, and the platform takes key and flash. */
  lemma StartAcceptedIff(c: Cipher, fw: Fw, payload: seq<byte>, now: u32, env: Env)
    requires !fw.uploading && |payload| >= 4 && FromLe32(payload[..4]) == 0
    ensures Handle(c, fw, payload, now, env).1 == Ok
            <==> |payload| >= START_LEN && env.aesKey && env.partitionFound && env.otaBegin
                 && var size := FromLe32(payload[4..8]); size % 16 == 0 && MIN_SIZE <= size <= PARTITION_SIZE
  {
  }

  /** A STEP is accepted exactly when it is the next one, more bytes are expected, its data is
      whole blocks up to 240 bytes, nothing went wrong before, and cipher and flash agree. */
  lemma StepAcceptedIff(c: Cipher, fw: Fw, payload: seq<byte>, now: u32, env: Env)
    requires Inv(fw) && fw.uploading && |payload| >= 4 && FromLe32(payload[..4]) != FINISH
    ensures var data := payload[4..];
            Handle(c, fw, payload, now, env).1 == Ok
            <==> FromLe32(payload[..4]) == Add32(fw.indexPrev, 1) && fw.bytesCounter < fw.firmSize
                 && |data| <= CHUNK_SIZE && |data| % 16 == 0 && env.aesCrypt && env.otaWrite
  {
  }

  /** A FINISH is accepted exactly when the flash holds an image of the announced length and
      checksum, the platform validates it, and the boot partition can be set. */
  lemma FinishAcceptedIff(c: Cipher, fw: Fw, payload: seq<byte>, now: u32, env: Env)
    requires Inv(fw) && fw.uploading && |payload| >= 4 && FromLe32(payload[..4]) == FINISH
    ensures Handle(c, fw, payload, now, env).1 == Ok
            <==> Matches(fw.port.written, fw.starts[|fw.starts| - 1]) && env.otaEnd && env.setBoot
  {
  }

  /** Any other answer than OK writes nothing to flash, and, unless the packet was too short to
      carry an index, ends the upload. */
  lemma ErrorsWriteNothing(c: Cipher, fw: Fw, payload: seq<byte>, now: u32, env: Env)
    requires Handle(c, fw, payload, now, env).1 != Ok
    ensures var fw' := Handle(c, fw, payload, now, env).0;
            fw'.port.written == fw.port.written && (|payload| >= 4 ==> !fw'.uploading)
    ensures |payload| < 4 ==> Handle(c, fw, payload, now, env).0 == fw
  {
    if |payload| >= 4 {
      if fw.uploading {
        UploadErrors(c, fw, payload, now, env);
      } else if |payload| >= START_LEN && FromLe32(payload[..4]) == 0 {
        StartErrors(fw, payload, now, env);
      }
    }
  }

  lemma UploadErrors(c: Cipher, fw: Fw, payload: seq<byte>, now: u32, env: Env)
    requires |payload| >= 4 && HandleUpload(c, fw, payload, now, env).1 != Ok
    ensures HandleUpload(c, fw, payload, now, env).0.port.written == fw.port.written
    ensures !HandleUpload(c, fw, payload, now, env).0.uploading
  {
  }

  lemma StartErrors(fw: Fw, payload: seq<byte>, now: u32, env: Env)
    requires |payload| >= START_LEN && HandleStart(fw, payload, now, env).1 != Ok
    ensures HandleStart(fw, payload, now, env).0.port.written == fw.port.written
    ensures !HandleStart(fw, payload, now, env).0.uploading
  {
  }

  // ---- when an upload is open ---------------------------------------------------------------------

  /** How far an open upload has come: the announced size, the last index, the bytes so far. */
  datatype Progress = Progress(size: u32, index: u32, count: u32)

  function Open(fw: Fw): Option<Progress> {
    if fw.uploading then Some(Progress(fw.firmSize, fw.indexPrev, fw.bytesCounter)) else None
  }

  /** The guards alone: a START with an admissible size opens, the next STEP goes on, runts change
      nothing, and everything else, FINISH included, closes. */
  function NextOpen(o: Option<Progress>, payload: seq<byte>, env: Env): Option<Progress> {
    if |payload| < 4 then o
    else
      var index, n := FromLe32(payload[..4]), |payload| - 4;
      match o
      case None =>
        if index != 0 || |payload| < START_LEN then None
        else
          var size := FromLe32(payload[4..8]);
          if size % 16 == 0 && MIN_SIZE <= size <= PARTITION_SIZE && env.aesKey && env.partitionFound && env.otaBegin
          then Some(Progress(size, 0, 0)) else None
      case Some(p) =>
        if index != FINISH && index == Add32(p.index, 1) && p.count < p.size && n <= CHUNK_SIZE && n % 16 == 0
           && env.aesCrypt && env.otaWrite
        then Some(Progress(p.size, index, Add32(p.count, n))) else None
  }

  /** Whether an upload is open is decided by the guards, whatever the data, the cipher and the
      checksum. */
  lemma OpenFollowsGuards(c: Cipher, fw: Fw, payload: seq<byte>, now: u32, env: Env)
    requires Inv(fw)
    ensures Open(Handle(c, fw, payload, now, env).0) == NextOpen(Open(fw), payload, env)
  {
    if |payload| >= 4 {
      if fw.uploading {
        UploadFollowsGuards(c, fw, payload, now, env);
      } else if FromLe32(payload[..4]) == 0 && |payload| >= START_LEN {
        StartFollowsGuards(fw, payload, now, env);
      }
    }
  }

  lemma StartFollowsGuards(fw: Fw, payload: seq<byte>, now: u32, env: Env)
    requires |payload| >= START_LEN && FromLe32(payload[..4]) == 0
    ensures Open(HandleStart(fw, payload, now, env).0) == NextOpen(None, payload, env)
  {
  }

  lemma UploadFollowsGuards(c: Cipher, fw: Fw, payload: seq<byte>, now: u32, env: Env)
    requires Inv(fw) && fw.uploading && |payload| >= 4
    ensures Open(HandleUpload(c, fw, payload, now, env).0) == NextOpen(Open(fw), payload, env)
  {
  }

  /** A FW_UPDATE packet long enough to carry an index, and the platform while it is handled. */
  datatype Input = Input(payload: seq<byte>, env: Env) {
    predicate Indexed() {
      |payload| >= 4
    }

    function Index(): u32
      requires Indexed()
    {
      FromLe32(payload[..4])
    }
  }

  type Inputs = l: seq<Input> | forall i :: 0 <= i < |l| ==> l[i].Indexed() witness []

  /** An admissible START. */
  predicate StartsUpload(x: Input)
    requires x.Indexed()
  {
    && x.Index() == 0 && |x.payload| >= START_LEN && x.env.aesKey && x.env.partitionFound && x.env.otaBegin
    && var size := FromLe32(x.payload[4..8]); size % 16 == 0 && MIN_SIZE <= size <= PARTITION_SIZE
  }

  /** The data bytes behind the first packet. */
  function DataBytes(u: Inputs): nat {
    if |u| <= 1 then 0 else DataBytes(u[..|u| - 1]) + |u[|u| - 1].payload| - 4
  }

  /** An admissible next STEP of the upload `u`: numbered on, with bytes still expected. */
  predicate Continues(u: Inputs, x: Input)
    requires u != [] && x.Indexed() && StartsUpload(u[0])
  {
    && x.Index() == |u| < FINISH && DataBytes(u) < FromLe32(u[0].payload[4..8])
    && |x.payload| - 4 <= CHUNK_SIZE && (|x.payload| - 4) % 16 == 0 && x.env.aesCrypt && x.env.otaWrite
  }

  /** An admissible START followed by consecutive admissible STEPs and nothing else. */
  predicate OneUpload(u: Inputs) {
    && u != [] && StartsUpload(u[0])
    && (|u| == 1 || (OneUpload(u[..|u| - 1]) && Continues(u[..|u| - 1], u[|u| - 1])))
  }

  predicate EndsIn(l: Inputs, i: nat)
    requires i < |l|
  {
    OneUpload(l[i..])
  }

  /** An upload is open at the end of a list of packets: the list ends in one upload whose START did
      not meet another one still open, which it would have closed. */
  predicate OpenAtEnd(l: Inputs)
    decreases |l|
  {
    exists i :: 0 <= i < |l| && EndsIn(l, i) && !OpenAtEnd(l[..i])
  }

  /** The guards folded over a list of packets, from idle. */
  function OpenAfter(l: Inputs): Option<Progress> {
    if l == [] then None else NextOpen(OpenAfter(l[..|l| - 1]), l[|l| - 1].payload, l[|l| - 1].env)
  }

  function ProgressOf(u: Inputs): Progress
    requires OneUpload(u)
  {
    UploadInRange(u);
    Progress(FromLe32(u[0].payload[4..8]), |u| - 1, DataBytes(u))
  }

  lemma UploadInRange(u: Inputs)
    requires OneUpload(u)
    ensures |u| - 1 < FINISH && DataBytes(u) < PARTITION_SIZE + CHUNK_SIZE
  {
  }

  /** One more packet continues an upload or closes it. */
  lemma OneMoreStep(u: Inputs, x: Input)
    requires OneUpload(u) && x.Indexed()
    ensures OneUpload(u + [x]) <==> Continues(u, x)
    ensures NextOpen(Some(ProgressOf(u)), x.payload, x.env)
         == if Continues(u, x) then Some(ProgressOf(u + [x])) else None
  {
    UploadInRange(u);
    assert (u + [x])[..|u|] == u;
  }

  lemma OneStart(x: Input)
    requires x.Indexed()
    ensures OneUpload([x]) <==> StartsUpload(x)
    ensures NextOpen(None, x.payload, x.env) == if StartsUpload(x) then Some(ProgressOf([x])) else None
  {
  }

  /** The last packet of a list and of the upload it ends in. */
  lemma SplitLast(l: Inputs, i: nat)
    requires i < |l| - 1
    ensures l[i..] == l[..|l| - 1][i..] + [l[|l| - 1]] && l[..|l| - 1][..i] == l[..i]
  {
  }

  /** One upload from idle is open, as far as its packets say. */
  lemma {:induction false} UploadIsOpen(l: Inputs, i: nat)
    requires i < |l| && OneUpload(l[i..]) && OpenAfter(l[..i]).None?
    ensures OpenAfter(l) == Some(ProgressOf(l[i..]))
    decreases |l|
  {
    var n := |l| - 1;
    if i == n {
      assert l[i..] == [l[n]];
      OneStart(l[n]);
    } else {
      SplitLast(l, i);
      var u := l[..n][i..];
      assert (u + [l[n]])[..|u|] == u;
      UploadIsOpen(l[..n], i);
      OneMoreStep(u, l[n]);
    }
  }

  /** And nothing else is. */
  lemma {:induction false} OpenIsUpload(l: Inputs) returns (i: nat)
    requires OpenAfter(l).Some?
    ensures i < |l| && OneUpload(l[i..]) && OpenAfter(l[..i]).None?
    decreases |l|
  {
    var n := |l| - 1;
    if OpenAfter(l[..n]).None? {
      i := n;
      assert l[i..] == [l[n]];
      OneStart(l[n]);
    } else {
      i := OpenIsUpload(l[..n]);
      SplitLast(l, i);
      UploadIsOpen(l[..n], i);
      OneMoreStep(l[..n][i..], l[n]);
    }
  }

  lemma EndsOpen(l: Inputs, i: nat)
    requires i < |l| && OneUpload(l[i..]) && !OpenAtEnd(l[..i])
    ensures OpenAtEnd(l)
  {
    assert EndsIn(l, i);
  }

  lemma StartOfOpen(l: Inputs) returns (i: nat)
    requires OpenAtEnd(l)
    ensures i < |l| && OneUpload(l[i..]) && !OpenAtEnd(l[..i])
  {
    i :| 0 <= i < |l| && EndsIn(l, i) && !OpenAtEnd(l[..i]);
  }

  /** Whether an upload is open, read off the packets themselves. */
  lemma {:induction false} OpenIffUploadAtEnd(l: Inputs)
    ensures OpenAfter(l).Some? <==> OpenAtEnd(l)
    decreases |l|
  {
    if OpenAfter(l).Some? {
      var i := OpenIsUpload(l);
      OpenIffUploadAtEnd(l[..i]);
      EndsOpen(l, i);
    } else if OpenAtEnd(l) {
      var i := StartOfOpen(l);
      OpenIffUploadAtEnd(l[..i]);
      UploadIsOpen(l, i);
    }
  }

  /** Ending in a START is not enough: one that meets an open upload closes it. */
  lemma StartMeetsOpenUpload(x: Input)
    requires x.Indexed() && StartsUpload(x)
    ensures OneUpload([x, x][1..]) && OpenAfter([x, x]).None?
  {
    assert [x, x][..1] == [x] && [x][..0] == [] && [x, x][1..] == [x];
    assert OpenAfter([x]) == NextOpen(None, x.payload, x.env);
  }

  // ---- safety over every run ----------------------------------------------------------------

  datatype Event = Packet(payload: seq<byte>, now: u32, env: Env) | Ticked(now: u32) | Session

  function Step(c: Cipher, fw: Fw, e: Event): Fw {
    match e
    case Packet(payload, now, env) => Handle(c, fw, payload, now, env).0
    case Ticked(now) => Tick(fw, now)
    case Session => SessionReset(fw)
  }

  function Run(c: Cipher, fw: Fw, es: seq<Event>): Fw {
    if es == [] then fw else Step(c, Run(c, fw, es[..|es| - 1]), es[|es| - 1])
  }

  function Boot(): Fw {
    Fw(false, 0, 0, 0, 0, 0, Ok, Fletcher32.INIT, Port(false, seq(BLOCK, _ => 0), [], None), [], [])
  }

  predicate Matches(image: seq<byte>, s: Start) {
    |image| == s.size && Fletcher32.Checksum(image) == s.checksum
  }

  /** Every set_boot call was made on a validated image that has exactly the size and the
      checksum announced by its START, and no START pays for two calls. */
  predicate BootsJustified(boots: seq<BootCall>, starts: seq<Start>) {
    && (forall i :: 0 <= i < |boots| ==>
          && 0 <= boots[i].start < |starts|
          && boots[i].image.Some? && Matches(boots[i].image.value, starts[boots[i].start]))
    && (forall i :: 0 < i < |boots| ==> boots[i - 1].start < boots[i].start)
  }

  /** What holds between packets while an upload is open. */
  predicate UploadInv(fw: Fw) {
    && fw.port.open
    && fw.status == Ok
    && fw.bytesCounter == |fw.port.written|
    && fw.bytesCounter <= fw.firmSize + CHUNK_SIZE - 16
    && fw.firmSize <= PARTITION_SIZE
    && fw.fletch == Fletcher32.Absorb(Fletcher32.INIT, fw.port.written)
    && fw.bytesCounter % 16 == 0 && fw.firmSize % 16 == 0
    && fw.starts != [] && fw.starts[|fw.starts| - 1] == Start(fw.firmSize, fw.firmChecksum)
  }

  /** An open upload has not used its START for a set_boot call yet. */
  predicate Inv(fw: Fw) {
    && BootsJustified(fw.boots, fw.starts)
    && (fw.uploading ==> UploadInv(fw) && (fw.boots == [] || fw.boots[|fw.boots| - 1].start < |fw.starts| - 1))
  }

  lemma StartKeepsInv(fw: Fw, payload: seq<byte>, now: u32, env: Env)
    requires Inv(fw) && !fw.uploading && |payload| >= START_LEN
    ensures Inv(HandleStart(fw, payload, now, env).0)
  {
    var fw' := HandleStart(fw, payload, now, env).0;
    assert forall i :: 0 <= i < |fw.starts| ==> fw'.starts[i] == fw.starts[i];
  }

  lemma FinishKeepsInv(fw: Fw, env: Env)
    requires Inv(fw) && fw.uploading
    ensures BootsJustified(Finish(fw, env).0.boots, fw.starts)
    ensures Finish(fw, env).0.starts == fw.starts
    ensures Finish(fw, env).1 == Ok ==> !Finish(fw, env).0.uploading
  {
    var ended := PortEnd(fw.port, env);
    if fw.bytesCounter == fw.firmSize && Fletcher32.Final(fw.fletch) == fw.firmChecksum && ended.1 {
      OneMoreBoot(fw.boots, fw.starts, fw.port.written);
    }
  }

  lemma OneMoreBoot(boots: seq<BootCall>, starts: seq<Start>, image: seq<byte>)
    requires BootsJustified(boots, starts) && starts != [] && Matches(image, starts[|starts| - 1])
    requires boots == [] || boots[|boots| - 1].start < |starts| - 1
    ensures BootsJustified(boots + [BootCall(Some(image), |starts| - 1)], starts)
  {
  }

  lemma DataKeepsInv(c: Cipher, fw: Fw, data: seq<byte>, now: u32, env: Env)
    requires Inv(fw) && fw.uploading && fw.bytesCounter < fw.firmSize
    requires Whole(data) && |data| <= CHUNK_SIZE
    ensures Inv(HandleData(c, fw, data, now, env).0)
  {
    var plain := AesDecrypt(c, fw.port, data, env).1;
    Fletcher32.AbsorbConcat(Fletcher32.INIT, fw.port.written, plain);
    MultiplesOf16(fw.bytesCounter, fw.firmSize, |data|);
  }

  lemma MultiplesOf16(a: nat, b: nat, n: nat)
    requires a % 16 == 0 && b % 16 == 0 && n % 16 == 0 && a < b && n <= CHUNK_SIZE
    ensures a + n <= b + CHUNK_SIZE - 16 && (a + n) % 16 == 0
  {
  }

  lemma HandleKeepsInv(c: Cipher, fw: Fw, payload: seq<byte>, now: u32, env: Env)
    requires Inv(fw)
    ensures Inv(Handle(c, fw, payload, now, env).0)
  {
    if |payload| >= 4 {
      var index := FromLe32(payload[..4]);
      if !fw.uploading {
        if index == 0 && |payload| >= START_LEN {
          StartKeepsInv(fw, payload, now, env);
        }
      } else if index == FINISH {
        FinishKeepsInv(fw, env);
      } else if index == Add32(fw.indexPrev, 1) && fw.bytesCounter < fw.firmSize
                && |payload| - 4 <= CHUNK_SIZE && (|payload| - 4) % 16 == 0 {
        DataKeepsInv(c, fw.(indexPrev := index), payload[4..], now, env);
      }
    }
  }

  /** Safety over all runs with arbitrary packets, ticks, session edges and port failures. */
  lemma {:induction false} Safety(c: Cipher, es: seq<Event>)
    ensures Inv(Run(c, Boot(), es))
  {
    if es != [] {
      Safety(c, es[..|es| - 1]);
      match es[|es| - 1]
      case Packet(payload, now, env) => HandleKeepsInv(c, Run(c, Boot(), es[..|es| - 1]), payload, now, env);
      case Ticked(now) =>
      case Session =>
    }
  }
}
