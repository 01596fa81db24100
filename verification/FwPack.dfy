/** tools/fwpack.py, and the upload of a packed image through the recovery build. */
module FwPack {
  import opened Bytes
  import opened Options
  import opened Cbc
  import opened FwUpdate
  import opened FwStatus
  import Fletcher32

  const HEADER := 24

  /** 0xFF-padded to a whole number of blocks. */
  function Padded(plain: seq<byte>): (p: seq<byte>)
    ensures Whole(p) && plain <= p && |p| < |plain| + BLOCK
  {
    if |plain| % BLOCK == 0 then plain else plain + seq(BLOCK - |plain| % BLOCK, _ => 0xFF)
  }

  /** The container; None where struct.pack refuses a length of more than 32 bits. */
  function Pack(c: Cipher, plain: seq<byte>, iv: Block): (r: Option<seq<byte>>)
    ensures r.Some? ==> |r.value| == HEADER + |Padded(plain)|
  {
    var padded := Padded(plain);
    var ct := Encrypt(c, iv, padded);
    if |ct| >= 0x1_0000_0000 then None
    else Some(Le32(|ct|) + Le32(Fletcher32.Checksum(padded)) + iv + ct)
  }

  /** The container: length and checksum of the padded image, low byte first, the vector, the
      ciphertext; the padding is 0xFF, up to the next whole block and no further. */
  lemma PackBytes(c: Cipher, plain: seq<byte>, iv: Block)
    requires Pack(c, plain, iv).Some?
    ensures var blob, padded := Pack(c, plain, iv).value, Padded(plain);
            && FromLe32(blob[..4]) == |padded| && FromLe32(blob[4..8]) == Fletcher32.Checksum(padded)
            && blob[8..24] == iv && blob[24..] == Encrypt(c, iv, padded)
            && |padded| % 16 == 0 && |plain| <= |padded| < |plain| + 16
            && forall i :: |plain| <= i < |padded| ==> padded[i] == 0xFF
  {
    var padded := Padded(plain);
    var ct := Encrypt(c, iv, padded);
    var size, sum := Le32(|ct|), Le32(Fletcher32.Checksum(padded));
    Le32RoundTrip(|ct|);
    Le32RoundTrip(Fletcher32.Checksum(padded));
    var blob := size + sum + iv + ct;
    assert blob[..4] == size && blob[4..8] == sum && blob[8..24] == iv && blob[24..] == ct;
  }

  // ---- the lockstep upload of a container -------------------------------------------------

  function StartPayload(blob: seq<byte>): seq<byte>
    requires |blob| >= HEADER
  {
    Le32(0) + blob[..HEADER]
  }

  function StepPayload(index: u32, chunk: seq<byte>): seq<byte> {
    Le32(index) + chunk
  }

  function FinishPayload(size: u32): seq<byte> {
    Le32(FINISH) + Le32(size)
  }

  /** A chunk the wire contract allows. */
  predicate Legal(chunk: seq<byte>) {
    chunk != [] && Whole(chunk) && |chunk| <= CHUNK_SIZE
  }

  /** A packet, the watchdog ticks since the packet before it, and its arrival time. */
  datatype Sent = Sent(ticks: seq<u32>, payload: seq<byte>, now: u32)

  /** The answers to a list of packets when every platform call succeeds. */
  function Exchange(c: Cipher, fw: Fw, sent: seq<Sent>): (Fw, seq<Status>)
    decreases sent
  {
    if sent == [] then (fw, [])
    else
      var (fw1, answer) := Handle(c, Ticks(fw, sent[0].ticks), sent[0].payload, sent[0].now, ALL_GOOD);
      var (fw2, answers) := Exchange(c, fw1, sent[1..]);
      (fw2, [answer] + answers)
  }

  /** No watchdog tick comes more than 2000 ms after the packet before it. */
  predicate NoGap(since: u32, sent: seq<Sent>)
    decreases sent
  {
    sent == [] || ((forall t :: t in sent[0].ticks ==> Sub32(t, since) <= TIMEOUT_MS) && NoGap(sent[0].now, sent[1..]))
  }

  lemma TicksHarmless(fw: Fw, ticks: seq<u32>)
    requires forall t :: t in ticks ==> Sub32(t, fw.lastRx) <= TIMEOUT_MS
    ensures Ticks(fw, ticks) == fw
  {
    if fw.uploading {
      forall i | 0 <= i < |ticks| ensures Elapsed(ticks[i], fw.lastRx) <= 2000 {
        TicksWrap(ticks[i], fw.lastRx);
      }
      WatchdogFires(fw, ticks);
    } else {
      IdleTicks(fw, ticks);
    }
  }

  /** The state after `k` STEPs that carried `done` of the ciphertext. */
  predicate Mid(c: Cipher, fw: Fw, iv: Block, size: nat, done: seq<byte>, k: nat) {
    && fw.uploading && fw.status == Ok && fw.port.open
    && fw.firmSize == size && fw.bytesCounter == |done| && fw.indexPrev == k
    && Whole(done)
    && fw.port.iv == NextIv(iv, done)
    && fw.port.written == Decrypt(c, iv, done)
    && fw.fletch == Fletcher32.Absorb(Fletcher32.INIT, fw.port.written)
  }

  lemma StartOk(c: Cipher, fw: Fw, plain: seq<byte>, iv: Block, now: u32)
    requires !fw.uploading && MIN_SIZE <= |Padded(plain)| <= PARTITION_SIZE
    ensures Pack(c, plain, iv).Some?
    ensures var blob := Pack(c, plain, iv).value;
            var (fw', answer) := Handle(c, fw, StartPayload(blob), now, ALL_GOOD);
            && answer == Ok && fw'.lastRx == now
            && Mid(c, fw', iv, |Padded(plain)|, [], 0)
            && fw'.firmChecksum == Fletcher32.Checksum(Padded(plain))
            && fw'.starts == fw.starts + [Start(|Padded(plain)|, Fletcher32.Checksum(Padded(plain)))]
            && fw'.boots == fw.boots
  {
    StartParses(|Padded(plain)|, Fletcher32.Checksum(Padded(plain)), iv, Encrypt(c, iv, Padded(plain)));
  }

  lemma StartParses(size: u32, sum: u32, iv: Block, ct: seq<byte>)
    ensures var p := StartPayload(Le32(size) + Le32(sum) + iv + ct);
            && |p| == START_LEN && FromLe32(p[..4]) == 0
            && FromLe32(p[4..8]) == size && FromLe32(p[8..12]) == sum && p[12..28] == iv
  {
    var p := StartPayload(Le32(size) + Le32(sum) + iv + ct);
    Le32RoundTrip(0);
    Le32RoundTrip(size);
    Le32RoundTrip(sum);
    assert p[..4] == Le32(0) && p[4..8] == Le32(size) && p[8..12] == Le32(sum) && p[12..28] == iv;
  }

  lemma DataOk(c: Cipher, fw: Fw, iv: Block, size: nat, done: seq<byte>, chunk: seq<byte>, k: nat, now: u32)
    requires Mid(c, fw, iv, size, done, k) && Whole(chunk) && |chunk| <= CHUNK_SIZE
    requires |done| + |chunk| <= size <= PARTITION_SIZE
    ensures var (fw', answer) := HandleData(c, fw, chunk, now, ALL_GOOD);
            && answer == Ok && fw'.lastRx == now
            && Mid(c, fw', iv, size, done + chunk, k)
            && fw'.firmChecksum == fw.firmChecksum && fw'.starts == fw.starts && fw'.boots == fw.boots
  {
    DecryptInPieces(c, iv, done, chunk);
    Fletcher32.AbsorbConcat(Fletcher32.INIT, fw.port.written, Decrypt(c, NextIv(iv, done), chunk));
  }

  lemma StepParses(index: u32, chunk: seq<byte>)
    ensures var p := StepPayload(index, chunk); |p| == 4 + |chunk| && FromLe32(p[..4]) == index && p[4..] == chunk
  {
    Le32RoundTrip(index);
    assert StepPayload(index, chunk)[..4] == Le32(index);
  }

  lemma StepOk(c: Cipher, fw: Fw, iv: Block, size: nat, done: seq<byte>, chunk: seq<byte>, k: nat, now: u32)
    requires Mid(c, fw, iv, size, done, k) && Legal(chunk)
    requires |done| + |chunk| <= size <= PARTITION_SIZE && k < PARTITION_SIZE
    ensures var (fw', answer) := Handle(c, fw, StepPayload(k + 1, chunk), now, ALL_GOOD);
            && answer == Ok && fw'.lastRx == now
            && Mid(c, fw', iv, size, done + chunk, k + 1)
            && fw'.firmChecksum == fw.firmChecksum && fw'.starts == fw.starts && fw'.boots == fw.boots
  {
    StepIsData(c, fw, iv, size, done, chunk, k, now);
    DataOk(c, fw.(indexPrev := k + 1), iv, size, done, chunk, k + 1, now);
  }

  lemma StepIsData(c: Cipher, fw: Fw, iv: Block, size: nat, done: seq<byte>, chunk: seq<byte>, k: nat, now: u32)
    requires Mid(c, fw, iv, size, done, k) && Legal(chunk)
    requires |done| + |chunk| <= size <= PARTITION_SIZE && k < PARTITION_SIZE
    ensures Handle(c, fw, StepPayload(k + 1, chunk), now, ALL_GOOD)
         == HandleData(c, fw.(indexPrev := k + 1), chunk, now, ALL_GOOD)
  {
    StepParses(k + 1, chunk);
  }

  lemma FinishOk(c: Cipher, fw: Fw, plain: seq<byte>, iv: Block, k: nat, now: u32)
    requires c.Invertible() && |Padded(plain)| <= PARTITION_SIZE
    requires Mid(c, fw, iv, |Padded(plain)|, Encrypt(c, iv, Padded(plain)), k)
    requires fw.firmChecksum == Fletcher32.Checksum(Padded(plain))
    ensures var (fw', answer) := Handle(c, fw, FinishPayload(|Padded(plain)|), now, ALL_GOOD);
            && answer == Ok && !fw'.uploading
            && fw'.port.written == Padded(plain)
            && fw'.boots == fw.boots + [BootCall(Some(Padded(plain)), |fw.starts| - 1)]
  {
    var p := FinishPayload(|Padded(plain)|);
    Le32RoundTrip(FINISH);
    assert p[..4] == Le32(FINISH);
    RoundTrip(c, iv, Padded(plain));
  }

  function Join(pieces: seq<seq<byte>>): seq<byte> {
    Fletcher32.Join(pieces)
  }

  /** The STEP packets for `chunks`, numbered from `k + 1`, then the FINISH packet. */
  predicate StepsAndFinish(sent: seq<Sent>, chunks: seq<seq<byte>>, k: nat, size: u32) {
    && |sent| == |chunks| + 1
    && k + |chunks| < FINISH
    && (forall i :: 0 <= i < |chunks| ==> sent[i].payload == StepPayload(k + i + 1, chunks[i]))
    && sent[|chunks|].payload == FinishPayload(size)
  }

  predicate AllLegal(chunks: seq<seq<byte>>) {
    forall i :: 0 <= i < |chunks| ==> Legal(chunks[i])
  }

  predicate AllOk(answers: seq<Status>) {
    forall i :: 0 <= i < |answers| ==> answers[i] == Ok
  }

  /** An upload under way: `done` has been accepted in `k` STEPs, `sent` is what remains. */
  ghost predicate UnderWay(c: Cipher, fw: Fw, plain: seq<byte>, iv: Block, done: seq<byte>,
                           chunks: seq<seq<byte>>, sent: seq<Sent>, k: nat) {
    && |Padded(plain)| <= PARTITION_SIZE && k <= |done|
    && Mid(c, fw, iv, |Padded(plain)|, done, k) && fw.firmChecksum == Fletcher32.Checksum(Padded(plain))
    && done + Join(chunks) == Encrypt(c, iv, Padded(plain)) && AllLegal(chunks)
    && StepsAndFinish(sent, chunks, k, |Padded(plain)|) && NoGap(fw.lastRx, sent)
  }

  lemma NextStep(sent: seq<Sent>, chunks: seq<seq<byte>>, k: nat, size: u32)
    requires chunks != [] && AllLegal(chunks) && StepsAndFinish(sent, chunks, k, size)
    ensures sent[0].payload == StepPayload(k + 1, chunks[0]) && Legal(chunks[0])
    ensures AllLegal(chunks[1..]) && StepsAndFinish(sent[1..], chunks[1..], k + 1, size)
  {
    assert forall i :: 0 <= i < |chunks| - 1 ==> sent[1..][i].payload == StepPayload(k + i + 2, chunks[1..][i]);
  }

  lemma StepAdvances(c: Cipher, fw: Fw, plain: seq<byte>, iv: Block, done: seq<byte>,
                     chunks: seq<seq<byte>>, sent: seq<Sent>, k: nat)
    requires UnderWay(c, fw, plain, iv, done, chunks, sent, k) && chunks != []
    ensures Ticks(fw, sent[0].ticks) == fw
    ensures var (fw1, answer) := Handle(c, fw, sent[0].payload, sent[0].now, ALL_GOOD);
            && answer == Ok && fw1.boots == fw.boots && fw1.starts == fw.starts
            && UnderWay(c, fw1, plain, iv, done + chunks[0], chunks[1..], sent[1..], k + 1)
  {
    TicksHarmless(fw, sent[0].ticks);
    StepExtends(done, chunks);
    NextStep(sent, chunks, k, |Padded(plain)|);
    StepOk(c, fw, iv, |Padded(plain)|, done, chunks[0], k, sent[0].now);
  }

  /** `n` packets answered OK; the image is in flash, and one more set_boot was called, on it. */
  predicate Complete(fw: Fw, end: Fw, answers: seq<Status>, n: nat, image: seq<byte>) {
    && |answers| == n && AllOk(answers)
    && !end.uploading && end.port.written == image
    && end.boots == fw.boots + [BootCall(Some(image), |fw.starts| - 1)]
  }

  lemma CompleteEarlier(fw: Fw, fw1: Fw, end: Fw, answers: seq<Status>, n: nat, image: seq<byte>)
    requires fw1.boots == fw.boots && fw1.starts == fw.starts && Complete(fw1, end, answers, n, image)
    ensures Complete(fw, end, [Ok] + answers, n + 1, image)
  {
  }

  lemma {:induction false} RestOfUpload(c: Cipher, fw: Fw, plain: seq<byte>, iv: Block, done: seq<byte>,
                                        chunks: seq<seq<byte>>, sent: seq<Sent>, k: nat)
    requires c.Invertible() && UnderWay(c, fw, plain, iv, done, chunks, sent, k)
    ensures Complete(fw, Exchange(c, fw, sent).0, Exchange(c, fw, sent).1, |sent|, Padded(plain))
    decreases |chunks|
  {
    if chunks == [] {
      TicksHarmless(fw, sent[0].ticks);
      assert done + [] == done;
      FinishOk(c, fw, plain, iv, k, sent[0].now);
      assert sent[1..] == [];
    } else {
      StepAdvances(c, fw, plain, iv, done, chunks, sent, k);
      var fw1 := Handle(c, fw, sent[0].payload, sent[0].now, ALL_GOOD).0;
      RestOfUpload(c, fw1, plain, iv, done + chunks[0], chunks[1..], sent[1..], k + 1);
      var (end, answers) := Exchange(c, fw1, sent[1..]);
      CompleteEarlier(fw, fw1, end, answers, |sent| - 1, Padded(plain));
    }
  }

  lemma StepExtends(done: seq<byte>, chunks: seq<seq<byte>>)
    requires chunks != []
    ensures done + chunks[0] + Join(chunks[1..]) == done + Join(chunks)
  {
  }

  /** What was packed is what is flashed: for every image whose padded size the loader
      accepts, every IV and every legal division of the ciphertext into STEPs, with no
      failing platform call and no watchdog gap, every packet is answered OK, the flash holds
      the padded image, and set_boot is called once, on it. */
  lemma UploadRoundTrip(c: Cipher, fw: Fw, plain: seq<byte>, iv: Block, chunks: seq<seq<byte>>, sent: seq<Sent>)
    requires c.Invertible() && !fw.uploading
    requires MIN_SIZE <= |Padded(plain)| <= PARTITION_SIZE
    requires Pack(c, plain, iv).Some? && Join(chunks) == Pack(c, plain, iv).value[HEADER..] && AllLegal(chunks)
    requires |sent| >= 1 && sent[0].payload == StartPayload(Pack(c, plain, iv).value)
    requires StepsAndFinish(sent[1..], chunks, 0, |Padded(plain)|) && NoGap(sent[0].now, sent[1..])
    ensures var (fw', answers) := Exchange(c, fw, sent);
            && |answers| == |sent| && AllOk(answers)
            && fw'.port.written == Padded(plain)
            && fw'.boots == fw.boots + [BootCall(Some(Padded(plain)), |fw.starts|)]
  {
    IdleTicks(fw, sent[0].ticks);
    StartOk(c, fw, plain, iv, sent[0].now);
    var fw1 := Handle(c, fw, sent[0].payload, sent[0].now, ALL_GOOD).0;
    var ct := Encrypt(c, iv, Padded(plain));
    assert Pack(c, plain, iv).value[HEADER..] == ct;
    assert [] + Join(chunks) == ct;
    RestOfUpload(c, fw1, plain, iv, [], chunks, sent[1..], 0);
  }
}
