/**
 * Memory queue descriptors (MQDs): the records gfx_v10_0_gfx_mqd_init and
 * gfx_v10_0_compute_mqd_init fill in for the command processor. An MQD is a
 * map from the descriptor's slots to register values; a slot that is not in
 * the map is zero, so the empty map is a descriptor just cleared by memset.
 * Register reads the initialisers make are inputs.
 */
module Mqds {
  import opened Words
  import opened Rings

  /** GFX10_MEC_HPD_SIZE: bytes of end-of-pipe buffer per compute queue. */
  const GFX10_MEC_HPD_SIZE: nat := 2048
  const AMDGPU_GPU_PAGE_SIZE: nat := 4096

  /** The slots of struct v10_gfx_mqd that gfx_v10_0_gfx_mqd_init sets. */
  datatype GfxSlot =
    | CpGfxHqdWptr | CpGfxHqdWptrHi | CpMqdBaseAddr | CpMqdBaseAddrHi | CpGfxMqdControl
    | CpGfxHqdVmid | CpGfxHqdQueuePriority | CpGfxHqdQuantum | CpGfxHqdBase | CpGfxHqdBaseHi
    | CpGfxHqdRptrAddr | CpGfxHqdRptrAddrHi | CpRbWptrPollAddrLo | CpRbWptrPollAddrHi
    | CpGfxHqdCntl | CpRbDoorbellControl | CpGfxHqdRptr | CpGfxHqdActive

  /** The slots of struct v10_compute_mqd that gfx_v10_0_compute_mqd_init sets. */
  datatype ComputeSlot =
    | MqdHeader | ComputePipelinestatEnable
    | ComputeStaticThreadMgmtSe0 | ComputeStaticThreadMgmtSe1
    | ComputeStaticThreadMgmtSe2 | ComputeStaticThreadMgmtSe3 | ComputeMiscReserved
    | CpHqdEopBaseAddrLo | CpHqdEopBaseAddrHi | CpHqdEopControl | CpHqdPqDoorbellControl
    | CpHqdDequeueRequest | CpHqdPqRptr | CpHqdPqWptrLo | CpHqdPqWptrHi
    | CpMqdBaseAddrLo | CpComputeMqdBaseAddrHi | CpMqdControl | CpHqdPqBaseLo | CpHqdPqBaseHi
    | CpHqdPqControl | CpHqdPqRptrReportAddrLo | CpHqdPqRptrReportAddrHi
    | CpHqdPqWptrPollAddrLo | CpHqdPqWptrPollAddrHi
    | CpHqdVmid | CpHqdPersistentState | CpHqdIbControl | CpHqdActive

  type GfxMqd = map<GfxSlot, RegVal>
  type ComputeMqd = map<ComputeSlot, RegVal>

  /** The registers gfx_v10_0_gfx_mqd_init reads (the CP_GFX_HQD_VMID read is discarded by the source). */
  datatype GfxReads = GfxReads(mqdControl: u32, queuePriority: u32, quantum: u32, hqdCntl: u32,
                               rbDoorbellControl: u32, hqdRptr: u32)

  /** The registers gfx_v10_0_compute_mqd_init reads. */
  datatype ComputeReads = ComputeReads(eopControl: u32, pqDoorbellControl: u32, mqdControl: u32,
                                       pqControl: u32, pqRptr: u32, persistentState: u32,
                                       ibControl: u32)

  /** addr & 0xfffffffc, stored in a 32-bit slot. */
  function Lo4(a: u64): (r: u32)
    ensures r % 4 == 0 && r <= Lo(a) < r + 4
  {
    Lo(a) / 4 * 4
  }

  /** upper_32_bits(addr) & 0xffff */
  function Hi16(a: u64): (r: u32)
    ensures r < 0x10000
  {
    Hi(a) % 0x10000
  }

  /** order_base_2(ring_size / 4) - 1, the ring-size field of the queue-control registers. */
  function RingSizeField(ringSize: nat): int {
    OrderBase2(ringSize / 4) - 1
  }

  function GfxMqdInit(ring: RingInfo, rd: GfxReads): GfxMqd {
    // rb_bufsz is a u32: order_base_2(ring_size / 4) - 1 wraps when the order is 0
    var rbBufsz := Lo(OrderBase2(ring.ringSize / 4) + TWO32 - 1);
    var hqd := ring.gpuAddr / 256;
    var rptrAddr := WbAddr(ring, ring.rptrOffs);
    var wptrAddr := WbAddr(ring, ring.wptrOffs);
    map[
      CpGfxHqdWptr := Plain(0),
      CpGfxHqdWptrHi := Plain(0),
      CpMqdBaseAddr := Plain(Lo4(ring.mqdGpuAddr)),
      CpMqdBaseAddrHi := Plain(Hi(ring.mqdGpuAddr)),
      CpGfxMqdControl := RegVal(rd.mqdControl, map[Vmid := 0, PrivState := 1, CachePolicy := 0]),
      CpGfxHqdVmid := Plain(0),
      CpGfxHqdQueuePriority := RegVal(rd.queuePriority, map[PriorityLevel := 0]),
      CpGfxHqdQuantum := RegVal(rd.quantum, map[QuantumEn := 1]),
      CpGfxHqdBase := Plain(Lo(hqd)),
      CpGfxHqdBaseHi := Plain(Hi(hqd)),
      CpGfxHqdRptrAddr := Plain(Lo4(rptrAddr)),
      CpGfxHqdRptrAddrHi := Plain(Hi16(rptrAddr)),
      CpRbWptrPollAddrLo := Plain(Lo4(wptrAddr)),
      CpRbWptrPollAddrHi := Plain(Hi16(wptrAddr)),
      CpGfxHqdCntl := RegVal(rd.hqdCntl, map[RbBufsz := rbBufsz, RbBlksz := Sub32(rbBufsz, 2)]),
      CpRbDoorbellControl :=
        if ring.useDoorbell then RegVal(rd.rbDoorbellControl, map[DoorbellOffset := ring.doorbellIndex, DoorbellEn := 1])
        else RegVal(rd.rbDoorbellControl, map[DoorbellEn := 0]),
      CpGfxHqdRptr := Plain(rd.hqdRptr),
      CpGfxHqdActive := Plain(1)]
  }

  function ComputeMqdInit(ring: RingInfo, rd: ComputeReads): ComputeMqd {
    var eop := ring.eopGpuAddr / 256;
    var hqd := ring.gpuAddr / 256;
    var rptrAddr := WbAddr(ring, ring.rptrOffs);
    var wptrAddr := WbAddr(ring, ring.wptrOffs);
    map[
      MqdHeader := Plain(0xC0310800),
      ComputePipelinestatEnable := Plain(1),
      ComputeStaticThreadMgmtSe0 := Plain(0xffffffff),
      ComputeStaticThreadMgmtSe1 := Plain(0xffffffff),
      ComputeStaticThreadMgmtSe2 := Plain(0xffffffff),
      ComputeStaticThreadMgmtSe3 := Plain(0xffffffff),
      ComputeMiscReserved := Plain(3),
      CpHqdEopBaseAddrLo := Plain(Lo(eop)),
      CpHqdEopBaseAddrHi := Plain(Hi(eop)),
      CpHqdEopControl := RegVal(rd.eopControl, map[EopSize := OrderBase2(GFX10_MEC_HPD_SIZE / 4) - 1]),
      // the second assignment of the doorbell control, the one that is kept
      CpHqdPqDoorbellControl :=
        if ring.useDoorbell then
          RegVal(rd.pqDoorbellControl, map[DoorbellOffset := ring.doorbellIndex, DoorbellEn := 1,
                                           DoorbellSource := 0, DoorbellHit := 0])
        else Plain(0),
      CpHqdDequeueRequest := Plain(0),
      CpHqdPqRptr := Plain(rd.pqRptr),
      CpHqdPqWptrLo := Plain(0),
      CpHqdPqWptrHi := Plain(0),
      CpMqdBaseAddrLo := Plain(Lo4(ring.mqdGpuAddr)),
      CpComputeMqdBaseAddrHi := Plain(Hi(ring.mqdGpuAddr)),
      CpMqdControl := RegVal(rd.mqdControl, map[Vmid := 0]),
      CpHqdPqBaseLo := Plain(Lo(hqd)),
      CpHqdPqBaseHi := Plain(Hi(hqd)),
      CpHqdPqControl :=
        RegVal(rd.pqControl, map[QueueSize := RingSizeField(ring.ringSize),
                                 RptrBlockSize := (OrderBase2(AMDGPU_GPU_PAGE_SIZE / 4) - 1) * 256,
                                 UnordDispatch := 0, TunnelDispatch := 0, PrivState := 1,
                                 KmdQueue := 1]),
      CpHqdPqRptrReportAddrLo := Plain(Lo4(rptrAddr)),
      CpHqdPqRptrReportAddrHi := Plain(Hi16(rptrAddr)),
      CpHqdPqWptrPollAddrLo := Plain(Lo4(wptrAddr)),
      CpHqdPqWptrPollAddrHi := Plain(Hi16(wptrAddr)),
      CpHqdVmid := Plain(0),
      CpHqdPersistentState := RegVal(rd.persistentState, map[PreloadSize := 0x53]),
      CpHqdIbControl := RegVal(rd.ibControl, map[MinIbAvailSize := 3]),
      CpHqdActive := Plain(1)]
  }

  // ---------------------------------------------------------------------------
  // What the descriptors say

  /** Two halves of addr >> 8 give back a 256-byte aligned address. */
  lemma Shift8RoundTrip(a: u64)
    requires a % 256 == 0
    ensures Join(Lo(a / 256), Hi(a / 256)) * 256 == a
  {
    JoinLoHi(a / 256);
  }

  /** A dword-aligned address below 2^48 survives the & 0xfffffffc / & 0xffff split. */
  lemma Lo4Hi16RoundTrip(a: u64)
    requires a % 4 == 0 && a < 0x1_0000_0000_0000
    ensures Join(Lo4(a), Hi16(a)) == a
  {
    var q, r := a / TWO32, a % TWO32;
    assert a == q * TWO32 + r;
    assert a % 4 == r % 4 by { ModUnique(a, 4, q * (TWO32 / 4) + r / 4, r % 4); }
    assert Lo4(a) == Lo(a);
    assert Hi(a) < 0x10000;
    JoinLoHi(a);
  }

  /** The write-back page is dword aligned and both ring pointers in it lie below 2^48. */
  predicate WbInRange(ring: RingInfo) {
    ring.wbGpuAddr % 4 == 0
    && ring.wbGpuAddr + ring.rptrOffs * 4 < 0x1_0000_0000_0000
    && ring.wbGpuAddr + ring.wptrOffs * 4 < 0x1_0000_0000_0000
  }

  lemma WbAddrAligned(ring: RingInfo, offs: nat)
    requires ring.wbGpuAddr % 4 == 0 && ring.wbGpuAddr + offs * 4 < 0x1_0000_0000_0000
    ensures WbAddr(ring, offs) == ring.wbGpuAddr + offs * 4
    ensures WbAddr(ring, offs) % 4 == 0
  {
  }

  /**
   * The gfx descriptor points the hardware at the ring's own MQD, ring
   * buffer and write-back slots: each address split over two slots joins
   * back to the ring's address.
   */
  lemma GfxMqdAddresses(ring: RingInfo, rd: GfxReads)
    requires ring.mqdGpuAddr % 4 == 0 && ring.mqdGpuAddr < 0x1_0000_0000_0000
    requires ring.gpuAddr % 256 == 0
    requires WbInRange(ring)
    ensures var m := GfxMqdInit(ring, rd);
            Join(m[CpMqdBaseAddr].base, m[CpMqdBaseAddrHi].base) == ring.mqdGpuAddr
            && Join(m[CpGfxHqdBase].base, m[CpGfxHqdBaseHi].base) * 256 == ring.gpuAddr
            && Join(m[CpGfxHqdRptrAddr].base, m[CpGfxHqdRptrAddrHi].base) == WbAddr(ring, ring.rptrOffs)
            && Join(m[CpRbWptrPollAddrLo].base, m[CpRbWptrPollAddrHi].base) == WbAddr(ring, ring.wptrOffs)
  {
    Lo4Hi16RoundTrip(ring.mqdGpuAddr);
    assert Hi16(ring.mqdGpuAddr) == Hi(ring.mqdGpuAddr);
    Shift8RoundTrip(ring.gpuAddr);
    WbAddrAligned(ring, ring.rptrOffs);
    WbAddrAligned(ring, ring.wptrOffs);
    Lo4Hi16RoundTrip(WbAddr(ring, ring.rptrOffs));
    Lo4Hi16RoundTrip(WbAddr(ring, ring.wptrOffs));
  }

  /** The compute descriptor's addresses likewise join back, the end-of-pipe buffer included. */
  lemma ComputeMqdAddresses(ring: RingInfo, rd: ComputeReads)
    requires ring.mqdGpuAddr % 4 == 0 && ring.mqdGpuAddr < 0x1_0000_0000_0000
    requires ring.gpuAddr % 256 == 0 && ring.eopGpuAddr % 256 == 0
    requires WbInRange(ring)
    ensures var m := ComputeMqdInit(ring, rd);
            Join(m[CpMqdBaseAddrLo].base, m[CpComputeMqdBaseAddrHi].base) == ring.mqdGpuAddr
            && Join(m[CpHqdPqBaseLo].base, m[CpHqdPqBaseHi].base) * 256 == ring.gpuAddr
            && Join(m[CpHqdEopBaseAddrLo].base, m[CpHqdEopBaseAddrHi].base) * 256 == ring.eopGpuAddr
            && Join(m[CpHqdPqRptrReportAddrLo].base, m[CpHqdPqRptrReportAddrHi].base) == WbAddr(ring, ring.rptrOffs)
            && Join(m[CpHqdPqWptrPollAddrLo].base, m[CpHqdPqWptrPollAddrHi].base) == WbAddr(ring, ring.wptrOffs)
  {
    Lo4Hi16RoundTrip(ring.mqdGpuAddr);
    assert Hi16(ring.mqdGpuAddr) == Hi(ring.mqdGpuAddr);
    Shift8RoundTrip(ring.gpuAddr);
    Shift8RoundTrip(ring.eopGpuAddr);
    WbAddrAligned(ring, ring.rptrOffs);
    WbAddrAligned(ring, ring.wptrOffs);
    Lo4Hi16RoundTrip(WbAddr(ring, ring.rptrOffs));
    Lo4Hi16RoundTrip(WbAddr(ring, ring.wptrOffs));
  }

  /** The ring-size field s of a ring of 2^k words, k >= 1, encodes it as 2^(s+1) words. */
  lemma RingSizeFieldEncodes(ringSize: nat, k: nat)
    requires ringSize / 4 == Pow2(k) && k >= 1
    ensures RingSizeField(ringSize) == k - 1
    ensures Pow2(RingSizeField(ringSize) + 1) == ringSize / 4
  {
    OrderBase2OfPow2(k);
  }

  /** RB_BUFSZ of the gfx queue and RB_BLKSZ two below it, as 32-bit values. */
  lemma GfxMqdRingSize(ring: RingInfo, rd: GfxReads, k: nat)
    requires ring.ringSize / 4 == Pow2(k) && 1 <= k <= 30
    ensures var c := GfxMqdInit(ring, rd)[CpGfxHqdCntl];
            c.base == rd.hqdCntl
            && c.fields[RbBufsz] == k - 1 && Pow2(c.fields[RbBufsz] + 1) == ring.ringSize / 4
            && c.fields[RbBlksz] == (k - 3) % TWO32
  {
    RingSizeFieldEncodes(ring.ringSize, k);
    assert OrderBase2(ring.ringSize / 4) + TWO32 - 1 == (k - 1) + TWO32;
    ModUnique((k - 1) + TWO32, TWO32, 1, k - 1);
  }

  /** QUEUE_SIZE of the compute queue encodes the ring as 2^(QUEUE_SIZE+1) words. */
  lemma ComputeMqdQueueSize(ring: RingInfo, rd: ComputeReads, k: nat)
    requires ring.ringSize / 4 == Pow2(k) && k >= 1
    ensures var c := ComputeMqdInit(ring, rd)[CpHqdPqControl];
            c.base == rd.pqControl
            && Pow2(c.fields[QueueSize] + 1) == ring.ringSize / 4
  {
    RingSizeFieldEncodes(ring.ringSize, k);
  }

  /**
   * The end-of-pipe buffer size field is 8: the hardware reads 2^(8+1)
   * dwords, exactly GFX10_MEC_HPD_SIZE bytes; the read-pointer block size is
   * (order_base_2(GPU page / 4) - 1) << 8 = 9 << 8.
   */
  lemma ComputeMqdSizes(ring: RingInfo, rd: ComputeReads)
    ensures var m := ComputeMqdInit(ring, rd);
            m[CpHqdEopControl].fields[EopSize] == 8
            && Pow2(m[CpHqdEopControl].fields[EopSize] + 1) * 4 == GFX10_MEC_HPD_SIZE
            && m[CpHqdPqControl].fields[RptrBlockSize] == 9 * 256
  {
    var m := ComputeMqdInit(ring, rd);
    OrderValues();
    assert m[CpHqdEopControl].fields[EopSize] == 8;
    assert m[CpHqdPqControl].fields[RptrBlockSize] == 9 * 256;
  }

  lemma OrderValues()
    ensures OrderBase2(GFX10_MEC_HPD_SIZE / 4) == 9 && OrderBase2(AMDGPU_GPU_PAGE_SIZE / 4) == 10
    ensures Pow2(9) == 512
  {
    Pow2Small();
    OrderBase2OfPow2(9);
    OrderBase2OfPow2(10);
  }

  lemma Pow2Small()
    ensures Pow2(9) == 512 && Pow2(10) == 1024
  {
    assert Pow2(0) == 1;
    assert Pow2(1) == 2;
    assert Pow2(2) == 4;
    assert Pow2(3) == 8;
    assert Pow2(4) == 16;
    assert Pow2(5) == 32;
    assert Pow2(6) == 64;
    assert Pow2(7) == 128;
    assert Pow2(8) == 256;
    assert Pow2(9) == 512;
  }

  /**
   * The compute doorbell control is decided by its second assignment: zero
   * exactly when the ring has no doorbell; otherwise the register read with
   * the doorbell enabled at the ring's index, source and hit cleared.
   */
  lemma ComputeMqdDoorbell(ring: RingInfo, rd: ComputeReads)
    ensures var d := ComputeMqdInit(ring, rd)[CpHqdPqDoorbellControl];
            (d == Plain(0) <==> !ring.useDoorbell)
            && (ring.useDoorbell ==>
                  d.base == rd.pqDoorbellControl
                  && d.fields == map[DoorbellOffset := ring.doorbellIndex as int, DoorbellEn := 1,
                                     DoorbellSource := 0, DoorbellHit := 0])
  {
    var d := ComputeMqdInit(ring, rd)[CpHqdPqDoorbellControl];
    if ring.useDoorbell {
      assert DoorbellEn in d.fields;
    }
  }

  /**
   * The gfx doorbell control keeps the register read and only sets the
   * enable bit to whether the ring has a doorbell, and the offset when it
   * has one.
   */
  lemma GfxMqdDoorbell(ring: RingInfo, rd: GfxReads)
    ensures var d := GfxMqdInit(ring, rd)[CpRbDoorbellControl];
            d.base == rd.rbDoorbellControl
            && d.fields[DoorbellEn] == (if ring.useDoorbell then 1 else 0)
            && (DoorbellOffset in d.fields <==> ring.useDoorbell)
            && (ring.useDoorbell ==> d.fields[DoorbellOffset] == ring.doorbellIndex)
  {
  }
}
