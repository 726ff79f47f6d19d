/**
 * The ring emitters of gfx_v10_0.c: each appends one packet to a ring with
 * amdgpu_ring_write, so each is proved to leave the ring holding the
 * packet's words at consecutive slots from the old write pointer, and the
 * write pointer advanced by the packet's length. What the words mean is
 * stated once, by the decoding lemmas of module Packets.
 */
module Emit {
  import opened Words
  import opened Rings
  import opened Packets

  // ---------------------------------------------------------------------------
  // KIQ packets, written to the KIQ ring

  method KiqSetResources(kiq: Ring, queueMask: u64)
    requires kiq.Valid()
    modifies kiq`wptr, kiq.buf
    ensures kiq.buf[..] == Written(old(kiq.buf[..]), old(kiq.wptr), SetResourcesPacket(queueMask))
    ensures kiq.wptr == old(kiq.wptr) + KiqPm4.setResourcesSize
  {
    kiq.WriteAll(SetResourcesPacket(queueMask));
  }

  method KiqMapQueues(kiq: Ring, ring: RingInfo)
    requires kiq.Valid()
    modifies kiq`wptr, kiq.buf
    ensures kiq.buf[..] == Written(old(kiq.buf[..]), old(kiq.wptr), MapQueuesPacket(ring))
    ensures kiq.wptr == old(kiq.wptr) + KiqPm4.mapQueuesSize
  {
    kiq.WriteAll(MapQueuesPacket(ring));
  }

  method KiqUnmapQueues(kiq: Ring, ring: RingInfo, action: UnmapAction, gpuAddr: u64, seqNo: u64)
    requires kiq.Valid()
    modifies kiq`wptr, kiq.buf
    ensures kiq.buf[..] == Written(old(kiq.buf[..]), old(kiq.wptr),
                                   UnmapQueuesPacket(ring, action, gpuAddr, seqNo))
    ensures kiq.wptr == old(kiq.wptr) + KiqPm4.unmapQueuesSize
  {
    kiq.WriteAll(UnmapQueuesPacket(ring, action, gpuAddr, seqNo));
  }

  method KiqQueryStatus(kiq: Ring, ring: RingInfo, addr: u64, seqNo: u64)
    requires kiq.Valid()
    modifies kiq`wptr, kiq.buf
    ensures kiq.buf[..] == Written(old(kiq.buf[..]), old(kiq.wptr), QueryStatusPacket(ring, addr, seqNo))
    ensures kiq.wptr == old(kiq.wptr) + KiqPm4.queryStatusSize
  {
    kiq.WriteAll(QueryStatusPacket(ring, addr, seqNo));
  }

  // ---------------------------------------------------------------------------
  // Other emitters

  method WriteDataToReg(ring: Ring, engSel: nat, wc: bool, reg: u32, val: u32)
    requires ring.Valid()
    modifies ring`wptr, ring.buf
    ensures ring.buf[..] == Written(old(ring.buf[..]), old(ring.wptr), WriteDataToRegPacket(engSel, wc, reg, val))
    ensures ring.wptr == old(ring.wptr) + 5
  {
    ring.WriteAll(WriteDataToRegPacket(engSel, wc, reg, val));
  }

  /** A memory wait needs a dword-aligned address (the source's BUG_ON). */
  method WaitRegMem(ring: Ring, engSel: nat, memSpace: nat, opt: nat, addr0: u32, addr1: u32,
                    ref: u32, mask: u32, inv: u32)
    requires ring.Valid()
    requires memSpace != 0 ==> addr0 % 4 == 0
    modifies ring`wptr, ring.buf
    ensures ring.buf[..] == Written(old(ring.buf[..]), old(ring.wptr),
                                    WaitRegMemPacket(engSel, memSpace, opt, addr0, addr1, ref, mask, inv))
    ensures ring.wptr == old(ring.wptr) + 7
  {
    ring.WriteAll(WaitRegMemPacket(engSel, memSpace, opt, addr0, addr1, ref, mask, inv));
  }

  /** AMDGPU_FENCE_FLAG_64BIT and AMDGPU_FENCE_FLAG_INT */
  datatype FenceFlags = FenceFlags(write64: bool, interrupt: bool)

  /** The PCI device whose fence interrupts are replaced by the fallback path. */
  const NoFenceIntDevice: nat := 0x50

  /** Whether gfx_v10_0_ring_emit_fence asks for an interrupt. */
  function FenceIntSel(flags: FenceFlags, device: nat): (b: bool)
    ensures b <==> flags.interrupt && device != NoFenceIntDevice
  {
    flags.interrupt && device != NoFenceIntDevice
  }

  /** A 64-bit fence needs a qword-aligned address, a 32-bit one a dword-aligned one. */
  method EmitFence(ring: Ring, device: nat, addr: u64, seqNo: u64, flags: FenceFlags)
    requires ring.Valid()
    requires if flags.write64 then addr % 8 == 0 else addr % 4 == 0
    modifies ring`wptr, ring.buf
    ensures ring.buf[..] == Written(old(ring.buf[..]), old(ring.wptr),
                                    FencePacket(addr, seqNo, flags.write64, FenceIntSel(flags, device)))
    ensures ring.wptr == old(ring.wptr) + 8
  {
    var intSel := flags.interrupt;
    if device == NoFenceIntDevice {
      intSel := false;
    }
    ring.WriteAll(FencePacket(addr, seqNo, flags.write64, intSel));
  }

  /** The KIQ ring has only 32-bit fence slots, so a 64-bit fence is refused (the source's BUG_ON). */
  method EmitFenceKiq(ring: Ring, regs: KiqFenceRegs, addr: u64, seqNo: u64, flags: FenceFlags)
    requires ring.Valid()
    requires !flags.write64
    modifies ring`wptr, ring.buf
    ensures ring.buf[..] == Written(old(ring.buf[..]), old(ring.wptr),
                                    FenceKiqPacket(addr, seqNo, flags.interrupt, regs))
    ensures ring.wptr == old(ring.wptr) + if flags.interrupt then 10 else 5
  {
    ring.WriteAll(FenceKiqPacket(addr, seqNo, flags.interrupt, regs));
  }

  // ---------------------------------------------------------------------------
  // Conditional execution

  /**
   * gfx_v10_0_ring_emit_init_cond_exec: the returned offset is the masked
   * write pointer at which the placeholder went out, and the placeholder is
   * there.
   */
  method InitCondExec(ring: Ring) returns (offset: nat)
    requires ring.Valid()
    modifies ring`wptr, ring.buf
    ensures ring.buf[..] == Written(old(ring.buf[..]), old(ring.wptr), CondExecPacket(ring.info.condExeGpuAddr))
    ensures ring.wptr == old(ring.wptr) + 5
    ensures offset == (old(ring.wptr) + 4) % ring.buf.Length
    ensures offset <= ring.BufMask()
    ensures ring.buf[offset] == Raw(CondExecPlaceholder)
  {
    var p := CondExecPacket(ring.info.condExeGpuAddr);
    ring.WriteAll(p[..4]);
    offset := ring.wptr % ring.buf.Length;
    ring.Write(p[4]);
    ghost var s0 := old(ring.buf[..]);
    ghost var w0 := old(ring.wptr);
    assert p == p[..4] + [p[4]];
    WrittenSplit(s0, w0, p[..4], [p[4]]);
    WrittenLast(s0, w0, p);
  }

  /** Writing a + b is writing a, then b. */
  lemma {:induction false} WrittenSplit(s: seq<Word>, p: nat, a: seq<Word>, b: seq<Word>)
    requires |s| > 0
    ensures Written(s, p, a + b) == Written(Written(s, p, a), p + |a|, b)
    decreases |a|
  {
    if a != [] {
      assert (a + b)[0] == a[0];
      assert (a + b)[1..] == a[1..] + b;
      WrittenSplit(s[p % |s| := a[0]], p + 1, a[1..], b);
    } else {
      assert a + b == b;
    }
  }

  /**
   * gfx_v10_0_ring_emit_patch_cond_exec: only the placeholder's slot changes,
   * and it receives the count of slots from it to the last word written.
   */
  method PatchCondExec(ring: Ring, offset: nat)
    requires ring.Valid()
    requires offset <= ring.BufMask()
    requires ring.buf[offset] == Raw(CondExecPlaceholder)
    modifies ring.buf
    ensures ring.buf[..] == old(ring.buf[..])[offset := Raw(CondExecCount(offset, (ring.wptr - 1) % ring.buf.Length, ring.buf.Length))]
  {
    var n := ring.buf.Length;
    var cur := (ring.wptr - 1) % n;
    var c;
    if cur > offset {
      c := cur - offset;
    } else {
      c := n - offset + cur;
    }
    ring.buf[offset] := Raw(c);
  }

  // ---------------------------------------------------------------------------
  // Polls

  /**
   * Up to `timeout` probes of a value, one per microsecond; probes[i] is what
   * probe i sees. The result is the index of the first probe that saw
   * `want`, or `timeout` when none did.
   */
  method Poll(probes: seq<u32>, want: u32, timeout: nat) returns (i: nat)
    requires timeout <= |probes|
    ensures i <= timeout
    ensures forall j :: 0 <= j < i ==> probes[j] != want
    ensures i < timeout ==> probes[i] == want
  {
    i := 0;
    while i < timeout
      invariant i <= timeout
      invariant forall j :: 0 <= j < i ==> probes[j] != want
    {
      if probes[i] == want {
        return;
      }
      i := i + 1;
    }
  }

  /**
   * gfx_v10_0_ring_test_ring. `scratch` is what amdgpu_gfx_scratch_get gave
   * (a register or an errno), `alloc` what amdgpu_ring_alloc returned, and
   * probes[i] the value of the scratch register at poll i. The three-word
   * packet is committed, so NOPs follow it to the next multiple of 256
   * words. The test succeeds exactly when some poll before the timeout sees
   * 0xDEADBEEF.
   */
  method RingTest(ring: Ring, scratch: Alloc<u32>, alloc: Status, uconfigStart: u32,
                  probes: seq<u32>, timeout: nat) returns (st: Status, writes: seq<RegWrite>)
    requires ring.Valid()
    requires timeout <= |probes|
    modifies ring`wptr, ring.buf
    ensures scratch.Failed? ==> st == Err(scratch.errno) && writes == []
    ensures scratch.Got? ==> writes == [RegWrite(Scratch(scratch.value), 0xCAFEDEAD)]
    ensures scratch.Got? && alloc.Err? ==> st == alloc
    ensures scratch.Failed? || alloc.Err? ==>
              ring.buf[..] == old(ring.buf[..]) && ring.wptr == old(ring.wptr)
    ensures scratch.Got? && alloc.Ok? ==>
              ring.buf[..] == Written(old(ring.buf[..]), old(ring.wptr),
                                      Padded(old(ring.wptr), RingTestPacket(scratch.value, uconfigStart)))
              && ring.wptr == old(ring.wptr) + |Padded(old(ring.wptr), RingTestPacket(scratch.value, uconfigStart))|
              && (st == Ok <==> exists j :: 0 <= j < timeout && probes[j] == 0xDEADBEEF)
              && (st != Ok ==> st == Err(EINVAL))
  {
    if scratch.Failed? {
      return Err(scratch.errno), [];
    }
    writes := [RegWrite(Scratch(scratch.value), 0xCAFEDEAD)];
    if alloc.Err? {
      return alloc, writes;
    }
    var packet := RingTestPacket(scratch.value, uconfigStart);
    ring.WriteAll(packet);
    ring.Commit();
    WrittenSplit(old(ring.buf[..]), old(ring.wptr), packet, Nops(NopPad(old(ring.wptr) + |packet|)));
    var i := Poll(probes, 0xDEADBEEF, timeout);
    if i < timeout {
      st := Ok;
    } else {
      st := Err(EINVAL);
    }
  }

  /**
   * gfx_v10_0_ring_preempt_ib. `pmf` says whether the KIQ packet table is
   * installed, `alloc` whether amdgpu_ring_alloc on the KIQ ring succeeded,
   * and fence[i] the trailing-fence value seen at poll i. On the main path
   * the ring's trail sequence number is incremented (32-bit), an
   * UNMAP_QUEUES carrying it is queued and committed on the KIQ, and the result says
   * whether the fence came back before the timeout; the preemption
   * condition is left asserted again.
   */
  method PreemptIb(ring: Ring, kiq: Ring, pmf: bool, alloc: Status, fence: seq<u32>, timeout: nat)
    returns (st: Status)
    requires ring.Valid() && kiq.Valid() && ring != kiq && ring.buf != kiq.buf
    requires timeout <= |fence|
    modifies ring`trailSeq, ring`condExec, kiq`wptr, kiq.buf
    ensures !pmf ==> st == Err(EINVAL)
    ensures pmf && alloc.Err? ==> st == Err(ENOMEM)
    ensures !pmf || alloc.Err? ==>
              kiq.buf[..] == old(kiq.buf[..]) && kiq.wptr == old(kiq.wptr)
              && ring.trailSeq == old(ring.trailSeq) && ring.condExec == old(ring.condExec)
    ensures pmf && alloc.Ok? ==>
              ring.trailSeq == (old(ring.trailSeq) + 1) % TWO32
              && kiq.buf[..] == Written(old(kiq.buf[..]), old(kiq.wptr),
                                        Padded(old(kiq.wptr),
                                               UnmapQueuesPacket(ring.info, PreemptQueuesNoUnmap,
                                                                 ring.info.trailFenceGpuAddr, ring.trailSeq)))
              && kiq.wptr == old(kiq.wptr) + |Padded(old(kiq.wptr),
                                                     UnmapQueuesPacket(ring.info, PreemptQueuesNoUnmap,
                                                                       ring.info.trailFenceGpuAddr, ring.trailSeq))|
              && ring.condExec
              && (st == Ok <==> exists j :: 0 <= j < timeout && fence[j] == ring.trailSeq)
              && (st != Ok ==> st == Err(EINVAL))
  {
    if !pmf {
      return Err(EINVAL);
    }
    if alloc.Err? {
      return Err(ENOMEM);
    }
    ring.condExec := false;
    ring.trailSeq := (ring.trailSeq + 1) % TWO32;
    KiqUnmapQueues(kiq, ring.info, PreemptQueuesNoUnmap, ring.info.trailFenceGpuAddr, ring.trailSeq);
    kiq.Commit();
    ghost var packet := UnmapQueuesPacket(ring.info, PreemptQueuesNoUnmap, ring.info.trailFenceGpuAddr, ring.trailSeq);
    WrittenSplit(old(kiq.buf[..]), old(kiq.wptr), packet, Nops(NopPad(old(kiq.wptr) + |packet|)));
    var i := Poll(fence, ring.trailSeq, timeout);
    st := if i < timeout then Ok else Err(EINVAL);
    ring.condExec := true;
  }
}
