/** The loader's watchdog over any list of ticks, and what each refused packet of an upload is told. */
module FwStatus {
  import opened Bytes
  import opened Options
  import opened Cbc
  import opened FwUpdate
  import Fletcher32

  // ---- the watchdog ------------------------------------------------------------------------------

  function Ticks(fw: Fw, ts: seq<u32>): Fw {
    if ts == [] then fw else Tick(Ticks(fw, ts[..|ts| - 1]), ts[|ts| - 1])
  }

  /** Every tick comes within two seconds of the last accepted packet. */
  predicate InTime(ts: seq<u32>, since: u32) {
    forall i :: 0 <= i < |ts| ==> Elapsed(ts[i], since) <= 2000
  }

  /** The watchdog over any list of ticks: an upload stays open, and is left as it was, exactly while every
      tick comes within two seconds; otherwise it is closed for good, and the timeout is kept. */
  lemma {:induction false} WatchdogFires(fw: Fw, ts: seq<u32>)
    requires fw.uploading
    ensures Ticks(fw, ts) == if InTime(ts, fw.lastRx) then fw else fw.(uploading := false, status := Timeout)
    decreases |ts|
  {
    if ts != [] {
      var n := |ts| - 1;
      WatchdogFires(fw, ts[..n]);
      TicksWrap(ts[n], fw.lastRx);
      if InTime(ts[..n], fw.lastRx) {
        forall i | 0 <= i < n ensures Elapsed(ts[i], fw.lastRx) <= 2000 {
          assert ts[..n][i] == ts[i];
        }
      } else {
        var i :| 0 <= i < n && Elapsed(ts[..n][i], fw.lastRx) > 2000;
        assert ts[i] == ts[..n][i];
      }
    }
  }

  lemma {:induction false} IdleTicks(fw: Fw, ts: seq<u32>)
    requires !fw.uploading
    ensures Ticks(fw, ts) == fw
    decreases |ts|
  {
    if ts != [] {
      IdleTicks(fw, ts[..|ts| - 1]);
    }
  }

  /** Behind a timeout: a late STEP is told of it, and changes nothing; an admissible START is accepted. */
  lemma AfterTimeout(c: Cipher, fw: Fw, ts: seq<u32>, payload: seq<byte>, now: u32, env: Env)
    requires fw.uploading && !InTime(ts, fw.lastRx) && |payload| >= 4
    ensures var idle := Ticks(fw, ts);
            && (FromLe32(payload[..4]) != 0 ==> Handle(c, idle, payload, now, env) == (idle, Timeout))
            && (StartsUpload(Input(payload, env))
                ==> Handle(c, idle, payload, now, env).1 == Ok && Handle(c, idle, payload, now, env).0.uploading)
  {
    WatchdogFires(fw, ts);
  }

  /** The watchdog starts anew with every packet that leaves the upload open. */
  lemma AcceptedRestartsWatchdog(c: Cipher, fw: Fw, payload: seq<byte>, now: u32, env: Env)
    requires |payload| >= 4 && Handle(c, fw, payload, now, env).0.uploading
    ensures Handle(c, fw, payload, now, env).0.lastRx == now
  {
  }

  /** No two statuses share a code, and OK is 0. */
  lemma CodesDiffer(a: Status, b: Status)
    ensures a.Code() == b.Code() ==> a == b
    ensures a.Code() == 0 <==> a == Ok
  {
  }

  // ---- what a refused packet is told -----------------------------------------------------------------

  /** The status of a STEP that meets an open upload: each refusal has one cause, and they are tried in
      the order index, room, length, whole blocks, cipher, flash. */
  lemma StepStatus(c: Cipher, fw: Fw, payload: seq<byte>, now: u32, env: Env)
    requires Inv(fw) && fw.uploading && |payload| >= 4 && FromLe32(payload[..4]) != FINISH
    ensures var status := Handle(c, fw, payload, now, env).1;
            var next := FromLe32(payload[..4]) == (fw.indexPrev + 1) % 0x1_0000_0000;
            var room := fw.bytesCounter < fw.firmSize;
            var n := |payload| - 4;
            && (status == PacketLoss <==> !next)
            && (status == TooManyBytes <==> next && !room)
            && (status == PayloadTooLong <==> next && room && n > 240)
            && (status == DataNotFactor16 <==> next && room && n <= 240 && n % 16 != 0)
            && (status == Aes <==> next && room && n <= 240 && n % 16 == 0 && !env.aesCrypt)
            && (status == FlashProgram <==> next && room && n <= 240 && n % 16 == 0 && env.aesCrypt && !env.otaWrite)
            && (status == Ok <==> next && room && n <= 240 && n % 16 == 0 && env.aesCrypt && env.otaWrite)
  {
    StepOutcome(c, fw, payload, now, env);
  }

  lemma StepOutcome(c: Cipher, fw: Fw, payload: seq<byte>, now: u32, env: Env)
    requires Inv(fw) && fw.uploading && |payload| >= 4 && FromLe32(payload[..4]) != FINISH
    ensures var n := |payload| - 4;
            Handle(c, fw, payload, now, env).1 == (
              if FromLe32(payload[..4]) != (fw.indexPrev + 1) % 0x1_0000_0000 then PacketLoss
              else if fw.bytesCounter >= fw.firmSize then TooManyBytes
              else if n > 240 then PayloadTooLong
              else if n % 16 != 0 then DataNotFactor16
              else if !env.aesCrypt then Aes
              else if !env.otaWrite then FlashProgram else Ok)
  {
    assert Add32(fw.indexPrev, 1) == (fw.indexPrev + 1) % 0x1_0000_0000;
  }

  /** The status of a FINISH that meets an open upload, by what the flash holds. */
  lemma FinishStatus(c: Cipher, fw: Fw, payload: seq<byte>, now: u32, env: Env)
    requires Inv(fw) && fw.uploading && |payload| >= 4 && FromLe32(payload[..4]) == FINISH
    ensures var status, start := Handle(c, fw, payload, now, env).1, fw.starts[|fw.starts| - 1];
            var whole := |fw.port.written| == start.size;
            var good := whole && Fletcher32.Checksum(fw.port.written) == start.checksum;
            && (status == SizeDisagree <==> !whole)
            && (status == FwChecksum <==> whole && !good)
            && (status == ImageInvalid <==> good && !env.otaEnd)
            && (status == SetBoot <==> good && env.otaEnd && !env.setBoot)
            && (status == Ok <==> good && env.otaEnd && env.setBoot)
  {
  }

  /** The status of a packet that meets an idle loader. */
  lemma IdleStatus(c: Cipher, fw: Fw, payload: seq<byte>, now: u32, env: Env)
    requires !fw.uploading
    ensures var status := Handle(c, fw, payload, now, env).1;
            if |payload| < 4 then status == WrongState
            else if FromLe32(payload[..4]) != 0 then
              status == if fw.status == Ok then IndexNotZeroWhenIdle else fw.status
            else if |payload| < START_LEN then status == WrongState
            else
              var size := FromLe32(payload[4..8]);
              && (status == SizeNotMult16 <==> size % 16 != 0)
              && (status == SizeOutOfRange <==> size % 16 == 0 && size < 1024)
              && (status == Aes <==> size % 16 == 0 && size >= 1024 && !env.aesKey)
              && (status == FlashBegin <==> size % 16 == 0 && size >= 1024 && env.aesKey
                                            && !(env.partitionFound && env.otaBegin && size <= 0x6E_0000))
              && (status == Ok <==> StartsUpload(Input(payload, env)))
  {
  }

  /** What an accepted START sets up: size, checksum and vector as the packet says, nothing flashed yet. */
  lemma StartEffect(c: Cipher, fw: Fw, payload: seq<byte>, now: u32, env: Env)
    requires !fw.uploading && |payload| >= 4 && StartsUpload(Input(payload, env))
    ensures var fw' := Handle(c, fw, payload, now, env).0;
            && fw'.uploading && fw'.firmSize == FromLe32(payload[4..8]) && fw'.firmChecksum == FromLe32(payload[8..12])
            && fw'.port.iv == payload[12..28] && fw'.port.written == [] && fw'.bytesCounter == 0 && fw'.indexPrev == 0
            && fw'.status == Ok && fw'.lastRx == now && fw'.boots == fw.boots
            && fw'.starts == fw.starts + [Start(FromLe32(payload[4..8]), FromLe32(payload[8..12]))]
  {
  }

  /** What a refused STEP leaves: no upload, nothing more flashed, and no latched error, so that
      the next packet with an index is told the loader is idle. Only too many bytes also clear
      the counters. */
  lemma RefusedStep(c: Cipher, fw: Fw, payload: seq<byte>, now: u32, env: Env)
    requires Inv(fw) && fw.uploading && |payload| >= 4 && FromLe32(payload[..4]) != FINISH
    requires Handle(c, fw, payload, now, env).1 != Ok
    ensures var (fw', status) := Handle(c, fw, payload, now, env);
            && !fw'.uploading && fw'.status == Ok && fw'.port.written == fw.port.written && fw'.port.open
            && fw'.starts == fw.starts && fw'.boots == fw.boots && fw'.firmSize == fw.firmSize
            && fw'.firmChecksum == fw.firmChecksum
            && fw'.bytesCounter == (if status == TooManyBytes then 0 else fw.bytesCounter)
            && fw'.indexPrev == (if status == PacketLoss then fw.indexPrev
                                 else if status == TooManyBytes then 0 else FromLe32(payload[..4]))
            && fw'.lastRx == (if status == TooManyBytes then 0 else fw.lastRx)
  {
  }

  /** What a refused START leaves: no upload and no latched error; the port closed when it could
      not be opened for the new image, and otherwise as it was, but for the vector. */
  lemma RefusedStart(c: Cipher, fw: Fw, payload: seq<byte>, now: u32, env: Env)
    requires !fw.uploading && |payload| >= START_LEN && FromLe32(payload[..4]) == 0
    requires Handle(c, fw, payload, now, env).1 != Ok
    ensures var (fw', status) := Handle(c, fw, payload, now, env);
            && !fw'.uploading && fw'.status == Ok && fw'.starts == fw.starts && fw'.boots == fw.boots
            && fw'.port == fw.port.(iv := fw'.port.iv, open := fw'.port.open)
            && fw'.port.open == (fw.port.open && status != FlashBegin)
            && (status != FlashBegin ==> fw'.port.iv == fw.port.iv)
  {
  }

  /** A session edge ends the upload and closes the port; what is flashed and what was booted stay. */
  lemma SessionResetEffect(fw: Fw)
    ensures var fw' := SessionReset(fw);
            && !fw'.uploading && fw'.status == Ok && fw'.firmSize == 0 && fw'.bytesCounter == 0 && fw'.indexPrev == 0
            && fw'.port == fw.port.(open := false) && fw'.starts == fw.starts && fw'.boots == fw.boots
  {
  }

  /** A FINISH closes the port as soon as length and checksum agree, whatever the platform makes
      of the image. */
  lemma FinishEffect(c: Cipher, fw: Fw, payload: seq<byte>, now: u32, env: Env)
    requires Inv(fw) && fw.uploading && |payload| >= 4 && FromLe32(payload[..4]) == FINISH
    ensures var (fw', status) := Handle(c, fw, payload, now, env);
            && !fw'.uploading && fw'.starts == fw.starts && fw'.port.written == fw.port.written
            && fw'.port.open == (status == SizeDisagree || status == FwChecksum)
            && fw'.boots == (if status == Ok || status == SetBoot
                             then fw.boots + [BootCall(Some(fw.port.written), |fw.starts| - 1)] else fw.boots)
  {
  }

  /** What an accepted STEP does: its data, decrypted with the vector carried over, goes behind
      what is flashed. */
  lemma StepEffect(c: Cipher, fw: Fw, payload: seq<byte>, now: u32, env: Env)
    requires Inv(fw) && fw.uploading && |payload| >= 4 && FromLe32(payload[..4]) != FINISH
    requires Handle(c, fw, payload, now, env).1 == Ok
    ensures var fw', data := Handle(c, fw, payload, now, env).0, payload[4..];
            && Whole(data) && fw'.uploading && fw'.indexPrev == FromLe32(payload[..4]) && fw'.lastRx == now
            && fw'.port.written == fw.port.written + Decrypt(c, fw.port.iv, data)
            && fw'.port.iv == NextIv(fw.port.iv, data)
            && fw'.firmSize == fw.firmSize && fw'.firmChecksum == fw.firmChecksum
            && fw'.starts == fw.starts && fw'.boots == fw.boots
  {
  }
}
