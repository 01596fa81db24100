/** components/lccore/fwupdate_core.c and main/fwup_port.c as written: fields updated per
    packet, the payload decrypted in place. Each method is proved to do what the function of
    the same name in FwUpdate says. */
module FwUpdater {
  import opened Bytes
  import opened Options
  import opened Cbc
  import opened FwUpdate
  import Fletcher32

  /** The variables of the port and the flash behind it. */
  class FlashPort {
    const cipher: Cipher
    var open: bool
    var iv: Block
    var written: seq<byte>
    var finalized: Option<seq<byte>>

    function View(): Port
      reads this
    {
      Port(open, iv, written, finalized)
    }

    constructor (cipher: Cipher)
      ensures View() == FwUpdate.Boot().port && this.cipher == cipher
    {
      this.cipher := cipher;
      open, iv, written, finalized := false, seq(BLOCK, _ => 0), [], None;
    }

    method Abort()
      modifies this
      ensures View() == PortAbort(old(View()))
    {
      if open {
        open := false;
      }
    }

    method Begin(size: u32, env: Env) returns (ok: bool)
      modifies this
      ensures (View(), ok) == PortBegin(old(View()), size, env)
    {
      Abort();
      if !env.partitionFound || size > PARTITION_SIZE || !env.otaBegin {
        return false;
      }
      open, written, finalized := true, [], None;
      return true;
    }

    method Write(data: seq<byte>, env: Env) returns (ok: bool)
      modifies this
      ensures (View(), ok) == PortWrite(old(View()), data, env)
    {
      if !open || !env.otaWrite {
        return false;
      }
      written := written + data;
      return true;
    }

    method End(env: Env) returns (ok: bool)
      modifies this
      ensures (View(), ok) == PortEnd(old(View()), env)
    {
      if !open {
        return false;
      }
      open := false;
      finalized := if env.otaEnd then Some(written) else None;
      return env.otaEnd;
    }

    method StartCipher(iv: Block, env: Env) returns (ok: bool)
      modifies this
      ensures (View(), ok) == AesStart(old(View()), iv, env)
    {
      if env.aesKey {
        this.iv := iv;
      }
      return env.aesKey;
    }

    /** Decrypts `buf[from..to)` in place; the library call is CBC decryption itself. */
    method Decrypt(buf: array<byte>, from: nat, to: nat, env: Env) returns (ok: bool)
      requires from <= to <= buf.Length && Whole(buf[from..to])
      modifies this`iv, buf
      ensures (View(), buf[from..to], ok) == AesDecrypt(cipher, old(View()), old(buf[from..to]), env)
      ensures buf[..from] == old(buf[..from]) && buf[to..] == old(buf[to..])
    {
      if !env.aesCrypt {
        return false;
      }
      var data := buf[from..to];
      var plain := Cbc.Decrypt(cipher, iv, data);
      forall i | from <= i < to {
        buf[i] := plain[i - from];
      }
      assert buf[from..to] == plain;
      iv := NextIv(iv, data);
      return true;
    }
  }

  class Updater {
    const port: FlashPort
    const fletch: Fletcher32.Context
    var uploading: bool
    var firmSize: u32
    var firmChecksum: u32
    var bytesCounter: u32
    var indexPrev: u32
    var lastRx: u32
    var status: Status
    ghost var starts: seq<Start>
    ghost var boots: seq<BootCall>

    ghost function View(): Fw
      reads this, fletch, port
    {
      Fw(uploading, firmSize, firmChecksum, bytesCounter, indexPrev, lastRx, status, fletch.View(), port.View(),
         starts, boots)
    }

    /** fwup_init at boot. */
    constructor (cipher: Cipher)
      ensures View() == FwUpdate.Boot() && port.cipher == cipher && fresh(port) && fresh(fletch)
    {
      port := new FlashPort(cipher);
      fletch := new Fletcher32.Context();
      uploading, firmSize, firmChecksum, bytesCounter, indexPrev, lastRx, status := false, 0, 0, 0, 0, 0, Ok;
      starts, boots := [], [];
    }

    method ResetVar()
      modifies this, fletch
      ensures View() == FwUpdate.ResetVar(old(View()))
    {
      uploading, bytesCounter, indexPrev, status, lastRx := false, 0, 0, Ok, 0;
      fletch.Init();
    }

    /** fwup_session_reset: the port's handle is released however the upload ended. */
    method SessionReset()
      modifies this, fletch, port
      ensures View() == FwUpdate.SessionReset(old(View()))
    {
      port.Abort();
      ResetVar();
      firmSize := 0;
    }

    /** fwup_tick */
    method Tick(now: u32)
      modifies this`uploading, this`status
      ensures View() == FwUpdate.Tick(old(View()), now)
      ensures uploading <==> old(uploading) && Elapsed(now, lastRx) <= 2000
      ensures status == if old(uploading) && !uploading then Timeout else old(status)
    {
      if !uploading {
        return;
      }
      TicksWrap(now, lastRx);
      if Sub32(now, lastRx) > TIMEOUT_MS {
        uploading, status := false, Timeout;
      }
    }

    /** fwup_finish */
    method Finish(env: Env) returns (answer: Status)
      modifies this, port
      ensures (View(), answer) == FwUpdate.Finish(old(View()), env)
    {
      if bytesCounter != firmSize {
        return SizeDisagree;
      }
      if fletch.Value() != firmChecksum {
        return FwChecksum;
      }
      var ended := port.End(env);
      if !ended {
        return ImageInvalid;
      }
      boots := boots + [BootCall(port.finalized, |starts| - 1)];
      if !env.setBoot {
        return Status.SetBoot;
      }
      uploading := false;
      return Ok;
    }

    method HandleIdle(payload: seq<byte>, now: u32, env: Env) returns (answer: Status)
      requires |payload| >= 4
      modifies this, fletch, port
      ensures (View(), answer) == FwUpdate.HandleIdle(old(View()), payload, now, env)
    {
      if FromLe32(payload[..4]) != 0 {
        return if status != Ok then status else IndexNotZeroWhenIdle;
      }
      if |payload| < START_LEN {
        return WrongState;
      }
      ResetVar();
      firmSize := FromLe32(payload[4..8]);
      firmChecksum := FromLe32(payload[8..12]);
      if firmSize % 16 != 0 {
        return SizeNotMult16;
      }
      if firmSize < MIN_SIZE {
        return SizeOutOfRange;
      }
      var keyed := port.StartCipher(payload[12..28], env);
      if !keyed {
        return Aes;
      }
      var begun := port.Begin(firmSize, env);
      if !begun {
        return FlashBegin;
      }
      lastRx := now;
      uploading := true;
      starts := starts + [Start(firmSize, firmChecksum)];
      return Ok;
    }

    /** Decrypts the STEP data `buf[from..to)` in place, checksums the plaintext, programs it. */
    method HandleData(buf: array<byte>, from: nat, to: nat, now: u32, env: Env) returns (answer: Status)
      requires from <= to <= buf.Length && Whole(buf[from..to]) && to - from <= CHUNK_SIZE
      modifies this, fletch, port, buf
      ensures (View(), answer) == FwUpdate.HandleData(port.cipher, old(View()), old(buf[from..to]), now, env)
      ensures buf[..from] == old(buf[..from]) && buf[to..] == old(buf[to..])
    {
      var decrypted := port.Decrypt(buf, from, to, env);
      if !decrypted {
        uploading := false;
        return Aes;
      }
      fletch.Update(buf[from..to]);
      var wrote := port.Write(buf[from..to], env);
      if !wrote {
        uploading := false;
        return FlashProgram;
      }
      bytesCounter := Add32(bytesCounter, to - from);
      lastRx := now;
      return Ok;
    }

    /** A STEP with its data `buf[from..to)`. */
    method HandleStep(index: u32, buf: array<byte>, from: nat, to: nat, now: u32, env: Env, ghost payload: seq<byte>)
      returns (answer: Status)
      requires from <= to <= buf.Length && |payload| == 4 + to - from && payload[4..] == buf[from..to]
      requires status == Ok && index == FromLe32(payload[..4]) != FINISH
      modifies this, fletch, port, buf
      ensures (View(), answer) == FwUpdate.HandleUpload(port.cipher, old(View()), payload, now, env)
      ensures buf[..from] == old(buf[..from]) && buf[to..] == old(buf[to..])
    {
      if index != Add32(indexPrev, 1) {
        uploading := false;
        return PacketLoss;
      }
      indexPrev := index;
      if bytesCounter >= firmSize {
        ResetVar();
        return TooManyBytes;
      }
      if to - from > CHUNK_SIZE {
        uploading := false;
        return PayloadTooLong;
      }
      if (to - from) % 16 != 0 {
        uploading := false;
        return DataNotFactor16;
      }
      answer := HandleData(buf, from, to, now, env);
    }

    method HandleUpload(buf: array<byte>, at: nat, to: nat, now: u32, env: Env) returns (answer: Status)
      requires at + 4 <= to <= buf.Length
      modifies this, fletch, port, buf
      ensures (View(), answer) == FwUpdate.HandleUpload(port.cipher, old(View()), old(buf[at..to]), now, env)
      ensures buf[..at] == old(buf[..at]) && buf[to..] == old(buf[to..])
    {
      assert buf[at..to][..4] == buf[at..at + 4] && buf[at..to][4..] == buf[at + 4..to];
      var index := FromLe32(buf[at..at + 4]);
      if status != Ok {
        uploading := false;
        return status;
      }
      if index == FINISH {
        answer := Finish(env);
        if answer != Ok {
          ResetVar();
        }
        return;
      }
      ghost var before := buf[..at + 4];
      answer := HandleStep(index, buf, at + 4, to, now, env, buf[at..to]);
      assert buf[..at] == before[..at];
    }

    /** fwup_handle on the payload `buf[at..to)` of a packet in the receive buffer: only those
        bytes may be overwritten. */
    method Handle(buf: array<byte>, at: nat, to: nat, now: u32, env: Env) returns (answer: Status)
      requires at <= to <= buf.Length
      modifies this, fletch, port, buf
      ensures (View(), answer) == FwUpdate.Handle(port.cipher, old(View()), old(buf[at..to]), now, env)
      ensures buf[..at] == old(buf[..at]) && buf[to..] == old(buf[to..])
    {
      if to - at < 4 {
        return WrongState;
      }
      if uploading {
        answer := HandleUpload(buf, at, to, now, env);
      } else {
        answer := HandleIdle(buf[at..to], now, env);
      }
    }
  }
}
