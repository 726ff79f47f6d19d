/**
 * The type-3 packets this file emits, as word sequences, and a decoder that
 * reads a packet back into the request it carries.
 *
 * A type-3 packet is self-describing: its header holds the opcode and a
 * count, and the packet is count + 2 words long. The decoder relies only on
 * that framing and on the position of each operand, so "decoding the
 * encoder's output gives back its arguments" is a statement about what the
 * words mean, not about how they were produced.
 */
module Packets {
  import opened Words
  import opened Rings

  /** enum amdgpu_unmap_queues_action */
  datatype UnmapAction = PreemptQueues | ResetQueues | DisableProcessQueues | PreemptQueuesNoUnmap

  function ActionCode(a: UnmapAction): (c: nat)
    ensures c < 4
    ensures c == 3 <==> a == PreemptQueuesNoUnmap
  {
    match a
    case PreemptQueues => 0
    case ResetQueues => 1
    case DisableProcessQueues => 2
    case PreemptQueuesNoUnmap => 3
  }

  /** The fence a preempting UNMAP_QUEUES asks the scheduler firmware to write. */
  datatype Fence = Fence(addr: u64, seqNo: u32)

  /** What a packet asks the command processor to do. */
  datatype Command =
    | SetResourcesCmd(vmidMask: int, queueType: int, queueMask: u64, gwsMask: u64,
                      oacMask: u32, gdsHeap: u32)
    | MapQueuesCmd(queueSel: int, vmid: int, queue: int, pipe: int, me: int, queueType: int,
                   allocFormat: int, engineSel: int, numQueues: int, doorbell: int,
                   mqdAddr: u64, wptrAddr: u64)
    | UnmapQueuesCmd(action: int, queueSel: int, engineSel: int, numQueues: int,
                     doorbell: int, fence: Option<Fence>)
    | QueryStatusCmd(contextId: int, interruptSel: int, command: int, doorbell: int,
                     engineSel: int, addr: u64, seqNo: u64)
    | WriteDataCmd(engineSel: int, dstSel: int, confirm: bool, addrLo: u32, addrHi: u32,
                   value: u32)
    | WaitRegMemCmd(memSpace: int, operation: int, compare: int, engine: int,
                    addr0: u32, addr1: u32, reference: u32, mask: u32, interval: u32)
    | ReleaseMemCmd(event: map<Field, int>, dataSel: int, intSel: int, addr: u64, seqNo: u64)
    | CondExecCmd(addr: u64, count: u32)
    | SetUconfigRegCmd(offset: u32, value: u32)
    | PreambleCmd(begin: bool)
    | ContextControlCmd(load: u32, shadow: u32)
    | SetContextRegCmd(offset: u32, values: seq<u32>)
    | ClearStateCmd(value: u32)

  /** Sizes of the KIQ packets as the kiq_pm4_funcs table of this file declares them. */
  datatype KiqPm4Funcs = KiqPm4Funcs(setResourcesSize: nat, mapQueuesSize: nat,
                                     unmapQueuesSize: nat, queryStatusSize: nat)

  const KiqPm4: KiqPm4Funcs := KiqPm4Funcs(8, 7, 6, 7)

  /** The packet is one complete type-3 packet. */
  predicate Framed(p: seq<Word>) {
    |p| >= 2 && p[0].Header? && p[0].count + 2 == |p|
  }

  predicate RawFrom(p: seq<Word>, i: nat) {
    forall k :: i <= k < |p| ==> p[k].Raw?
  }

  predicate CtlAt(p: seq<Word>, i: nat, op: Opcode) {
    i < |p| && p[i].Fields? && p[i].op == op
  }

  function Data(p: seq<Word>, i: nat): (v: u32)
    requires i < |p| && p[i].Raw?
  {
    p[i].v
  }

  /** The values of words i.. of a packet whose tail is all literal words. */
  function DataFrom(p: seq<Word>, i: nat): (vs: seq<u32>)
    requires i <= |p| && RawFrom(p, i)
    ensures |vs| == |p| - i
    ensures forall k :: 0 <= k < |vs| ==> vs[k] == p[i + k].v
    decreases |p| - i
  {
    if i == |p| then [] else [p[i].v] + DataFrom(p, i + 1)
  }

  /** The request a single packet carries, if the words form one this file knows. */
  function DecodePacket(p: seq<Word>): (c: Option<Command>)
  {
    if !Framed(p) then None
    else match p[0].op
      case SetResources =>
        if |p| == 8 && CtlAt(p, 1, SetResources) && RawFrom(p, 2) then
          var fs := p[1].fs;
          Some(SetResourcesCmd(FieldValue(fs, VmidMask), FieldValue(fs, QueueType),
                               Join(Data(p, 2), Data(p, 3)), Join(Data(p, 4), Data(p, 5)),
                               Data(p, 6), Data(p, 7)))
        else None
      case MapQueues =>
        if |p| == 7 && CtlAt(p, 1, MapQueues) && CtlAt(p, 2, MapQueues) && RawFrom(p, 3) then
          var fs := p[1].fs;
          Some(MapQueuesCmd(FieldValue(fs, QueueSel), FieldValue(fs, Vmid), FieldValue(fs, Queue),
                            FieldValue(fs, Pipe), FieldValue(fs, Me), FieldValue(fs, QueueType),
                            FieldValue(fs, AllocFormat), FieldValue(fs, EngineSel),
                            FieldValue(fs, NumQueues), FieldValue(p[2].fs, DoorbellOffset),
                            Join(Data(p, 3), Data(p, 4)), Join(Data(p, 5), Data(p, 6))))
        else None
      case UnmapQueues =>
        if |p| == 6 && CtlAt(p, 1, UnmapQueues) && CtlAt(p, 2, UnmapQueues) && RawFrom(p, 3) then
          var fs := p[1].fs;
          var action := FieldValue(fs, Action);
          var fence := if action == 3 then Some(Fence(Join(Data(p, 3), Data(p, 4)), Data(p, 5)))
                       else None;
          if action != 3 && (Data(p, 3) != 0 || Data(p, 4) != 0 || Data(p, 5) != 0) then None
          else Some(UnmapQueuesCmd(action, FieldValue(fs, QueueSel), FieldValue(fs, EngineSel),
                                   FieldValue(fs, NumQueues), FieldValue(p[2].fs, DoorbellOffset),
                                   fence))
        else None
      case QueryStatus =>
        if |p| == 7 && CtlAt(p, 1, QueryStatus) && CtlAt(p, 2, QueryStatus) && RawFrom(p, 3) then
          var fs, gs := p[1].fs, p[2].fs;
          Some(QueryStatusCmd(FieldValue(fs, ContextId), FieldValue(fs, InterruptSel),
                              FieldValue(fs, Command), FieldValue(gs, DoorbellOffset),
                              FieldValue(gs, EngineSel),
                              Join(Data(p, 3), Data(p, 4)), Join(Data(p, 5), Data(p, 6))))
        else None
      case WriteData =>
        if |p| == 5 && CtlAt(p, 1, WriteData) && RawFrom(p, 2) then
          var fs := p[1].fs;
          Some(WriteDataCmd(FieldValue(fs, EngineSel), FieldValue(fs, DstSel),
                            FieldValue(fs, WrConfirm) != 0, Data(p, 2), Data(p, 3), Data(p, 4)))
        else None
      case WaitRegMem =>
        if |p| == 7 && CtlAt(p, 1, WaitRegMem) && RawFrom(p, 2) then
          var fs := p[1].fs;
          Some(WaitRegMemCmd(FieldValue(fs, MemSpace), FieldValue(fs, Operation),
                             FieldValue(fs, Function), FieldValue(fs, EngineSel),
                             Data(p, 2), Data(p, 3), Data(p, 4), Data(p, 5), Data(p, 6)))
        else None
      case ReleaseMem =>
        if |p| == 8 && CtlAt(p, 1, ReleaseMem) && CtlAt(p, 2, ReleaseMem) && RawFrom(p, 3)
           && Data(p, 7) == 0 then
          Some(ReleaseMemCmd(p[1].fs, FieldValue(p[2].fs, DataSel), FieldValue(p[2].fs, IntSel),
                             Join(Data(p, 3), Data(p, 4)), Join(Data(p, 5), Data(p, 6))))
        else None
      case CondExec =>
        if |p| == 5 && RawFrom(p, 1) && Data(p, 3) == 0 then
          Some(CondExecCmd(Join(Data(p, 1), Data(p, 2)), Data(p, 4)))
        else None
      case SetUconfigReg =>
        if |p| == 3 && RawFrom(p, 1) then Some(SetUconfigRegCmd(Data(p, 1), Data(p, 2)))
        else None
      case PreambleCntl =>
        if |p| == 2 && CtlAt(p, 1, PreambleCntl) then
          var fs := p[1].fs;
          if FieldValue(fs, PreambleBeginClearState) == 1 && FieldValue(fs, PreambleEndClearState) == 0 then
            Some(PreambleCmd(true))
          else if FieldValue(fs, PreambleBeginClearState) == 0 && FieldValue(fs, PreambleEndClearState) == 1 then
            Some(PreambleCmd(false))
          else None
        else None
      case ContextControl =>
        if |p| == 3 && RawFrom(p, 1) then Some(ContextControlCmd(Data(p, 1), Data(p, 2)))
        else None
      case SetContextReg =>
        if RawFrom(p, 1) then Some(SetContextRegCmd(Data(p, 1), DataFrom(p, 2)))
        else None
      case ClearState =>
        if |p| == 2 && RawFrom(p, 1) then Some(ClearStateCmd(Data(p, 1)))
        else None
      case _ => None
  }

  /** A stream of packets, split by the counts in their headers. */
  function DecodeStream(ws: seq<Word>): (cs: Option<seq<Command>>)
    decreases |ws|
  {
    if ws == [] then Some([])
    else if !ws[0].Header? || ws[0].count + 2 > |ws| then None
    else
      var n := ws[0].count + 2;
      match DecodePacket(ws[..n])
      case None => None
      case Some(c) =>
        match DecodeStream(ws[n..])
        case None => None
        case Some(rest) => Some([c] + rest)
  }

  /** A framed packet followed by more words decodes as its command, then the rest. */
  lemma DecodeStreamCons(p: seq<Word>, rest: seq<Word>, c: Command, cs: seq<Command>)
    requires Framed(p) && DecodePacket(p) == Some(c) && DecodeStream(rest) == Some(cs)
    ensures DecodeStream(p + rest) == Some([c] + cs)
  {
    var ws := p + rest;
    assert ws[..|p|] == p;
    assert ws[|p|..] == rest;
  }

  /** A single framed packet decodes as a one-command stream. */
  lemma DecodeSingle(p: seq<Word>, c: Command)
    requires Framed(p) && DecodePacket(p) == Some(c)
    ensures DecodeStream(p) == Some([c])
  {
    assert DecodeStream([]) == Some([]);
    DecodeStreamCons(p, [], c, []);
    assert p + [] == p && [c] + [] == [c];
  }

  /** A decodable non-empty stream starts with a framed packet that decodes. */
  lemma DecodeStreamHead(ws: seq<Word>)
    requires ws != [] && DecodeStream(ws).Some?
    ensures ws[0].Header? && ws[0].count + 2 <= |ws|
    ensures var n := ws[0].count + 2;
            Framed(ws[..n]) && DecodePacket(ws[..n]).Some? && DecodeStream(ws[n..]).Some? &&
            DecodeStream(ws).value == [DecodePacket(ws[..n]).value] + DecodeStream(ws[n..]).value
  {
  }

  lemma SplitConcat<T>(a: seq<T>, b: seq<T>, n: nat)
    requires n <= |a|
    ensures a + b == a[..n] + (a[n..] + b)
  {
    assert a == a[..n] + a[n..];
  }

  lemma ConsConcat<T>(c: T, x: seq<T>, y: seq<T>)
    ensures [c] + (x + y) == ([c] + x) + y
  {
  }

  /** Two decodable streams written one after the other decode as both command lists in order. */
  lemma {:induction false} DecodeStreamAppend(a: seq<Word>, b: seq<Word>)
    requires DecodeStream(a).Some? && DecodeStream(b).Some?
    ensures DecodeStream(a + b) == Some(DecodeStream(a).value + DecodeStream(b).value)
    decreases |a|
  {
    if a == [] {
      assert a + b == b;
      assert DecodeStream(a).value == [];
      assert [] + DecodeStream(b).value == DecodeStream(b).value;
    } else {
      DecodeStreamHead(a);
      var n := a[0].count + 2;
      var p, rest := a[..n], a[n..];
      var c, ra, rb := DecodePacket(p).value, DecodeStream(rest).value, DecodeStream(b).value;
      DecodeStreamAppend(rest, b);
      DecodeStreamCons(p, rest + b, c, ra + rb);
      SplitConcat(a, b, n);
      ConsConcat(c, ra, rb);
    }
  }
  /** DecodeStreamAppend with the two command lists named. */
  lemma DecodeStreamConcat(a: seq<Word>, b: seq<Word>, x: seq<Command>, y: seq<Command>)
    requires DecodeStream(a) == Some(x) && DecodeStream(b) == Some(y)
    ensures DecodeStream(a + b) == Some(x + y)
  {
    DecodeStreamAppend(a, b);
  }


  // ---------------------------------------------------------------------------
  // KIQ packets (gfx10_kiq_set_resources, _map_queues, _unmap_queues, _query_status)

  function SetResourcesPacket(queueMask: u64): (r: seq<Word>)
    ensures Framed(r) && r[0].op == SetResources
    ensures |r| == KiqPm4.setResourcesSize
  {
    [Header(SetResources, 6),
     Fields(SetResources, map[VmidMask := 0, QueueType := 0]),
     Raw(Lo(queueMask)), Raw(Hi(queueMask)),
     Raw(0), Raw(0),   // gws mask lo, hi
     Raw(0),           // oac mask
     Raw(0)]           // gds heap base and size
  }

  /** The packet declares the given queue slots to the scheduler firmware and nothing else. */
  lemma SetResourcesDecodes(queueMask: u64)
    ensures DecodePacket(SetResourcesPacket(queueMask)) ==
            Some(SetResourcesCmd(0, 0, queueMask, 0, 0, 0))
  {
    JoinLoHi(queueMask);
  }

  function MapQueuesPacket(ring: RingInfo): (r: seq<Word>)
    ensures Framed(r) && r[0].op == MapQueues
    ensures |r| == KiqPm4.mapQueuesSize
  {
    var wptrAddr := WbAddr(ring, ring.wptrOffs);
    [Header(MapQueues, 5),
     Fields(MapQueues, map[QueueSel := 0, Vmid := 0, Queue := ring.queue, Pipe := ring.pipe,
                           Me := if ring.me == 1 then 0 else 1, QueueType := 0,
                           AllocFormat := 0, EngineSel := EngSel(ring.kind), NumQueues := 1]),
     Fields(MapQueues, map[DoorbellOffset := ring.doorbellIndex]),
     Raw(Lo(ring.mqdGpuAddr)), Raw(Hi(ring.mqdGpuAddr)),
     Raw(Lo(wptrAddr)), Raw(Hi(wptrAddr))]
  }

  /**
   * MAP_QUEUES binds the ring's MQD and write-pointer shadow to its hardware
   * slot: queue and pipe as given, me 1 encoded as 0 and me 2 as 1, engine 4
   * for a gfx ring and 0 otherwise, exactly one queue.
   */
  lemma MapQueuesDecodes(ring: RingInfo)
    ensures DecodePacket(MapQueuesPacket(ring)) ==
            Some(MapQueuesCmd(0, 0, ring.queue, ring.pipe, if ring.me == 1 then 0 else 1, 0, 0,
                              EngSel(ring.kind), 1, ring.doorbellIndex, ring.mqdGpuAddr,
                              WbAddr(ring, ring.wptrOffs)))
  {
    JoinLoHi(ring.mqdGpuAddr);
    JoinLoHi(WbAddr(ring, ring.wptrOffs));
  }

  function UnmapQueuesPacket(ring: RingInfo, action: UnmapAction, gpuAddr: u64, seqNo: u64): (r: seq<Word>)
    ensures Framed(r) && r[0].op == UnmapQueues
    ensures |r| == KiqPm4.unmapQueuesSize
  {
    [Header(UnmapQueues, 4),
     Fields(UnmapQueues, map[Action := ActionCode(action), QueueSel := 0,
                             EngineSel := EngSel(ring.kind), NumQueues := 1]),
     Fields(UnmapQueues, map[DoorbellOffset := ring.doorbellIndex])]
    + (if action == PreemptQueuesNoUnmap then [Raw(Lo(gpuAddr)), Raw(Hi(gpuAddr)), Raw(Lo(seqNo))]
       else [Raw(0), Raw(0), Raw(0)])
  }

  /**
   * UNMAP_QUEUES carries a fence (address and the low 32 bits of the
   * sequence number) exactly when the action is PREEMPT_QUEUES_NO_UNMAP;
   * for every other action its last three words are zero.
   */
  lemma UnmapQueuesDecodes(ring: RingInfo, action: UnmapAction, gpuAddr: u64, seqNo: u64)
    ensures DecodePacket(UnmapQueuesPacket(ring, action, gpuAddr, seqNo)) ==
            Some(UnmapQueuesCmd(ActionCode(action), 0, EngSel(ring.kind), 1, ring.doorbellIndex,
                                if action == PreemptQueuesNoUnmap then Some(Fence(gpuAddr, Lo(seqNo)))
                                else None))
    ensures action != PreemptQueuesNoUnmap ==>
              UnmapQueuesPacket(ring, action, gpuAddr, seqNo)[3..] == [Raw(0), Raw(0), Raw(0)]
  {
    JoinLoHi(gpuAddr);
  }

  function QueryStatusPacket(ring: RingInfo, addr: u64, seqNo: u64): (r: seq<Word>)
    ensures Framed(r) && r[0].op == QueryStatus
    ensures |r| == KiqPm4.queryStatusSize
  {
    [Header(QueryStatus, 5),
     Fields(QueryStatus, map[ContextId := 0, InterruptSel := 0, Command := 2]),
     Fields(QueryStatus, map[DoorbellOffset := ring.doorbellIndex, EngineSel := EngSel(ring.kind)]),
     Raw(Lo(addr)), Raw(Hi(addr)), Raw(Lo(seqNo)), Raw(Hi(seqNo))]
  }

  /** QUERY_STATUS asks for the full 64-bit sequence number to be written at addr. */
  lemma QueryStatusDecodes(ring: RingInfo, addr: u64, seqNo: u64)
    ensures DecodePacket(QueryStatusPacket(ring, addr, seqNo)) ==
            Some(QueryStatusCmd(0, 0, 2, ring.doorbellIndex, EngSel(ring.kind), addr, seqNo))
  {
    JoinLoHi(addr);
    JoinLoHi(seqNo);
  }

  // ---------------------------------------------------------------------------
  // Other type-3 emitters of this file

  /** gfx_v10_0_write_data_to_reg */
  function WriteDataToRegPacket(engSel: nat, wc: bool, reg: u32, val: u32): (r: seq<Word>)
    ensures Framed(r) && |r| == 5
  {
    [Header(WriteData, 3),
     Fields(WriteData, map[EngineSel := engSel, DstSel := 0, WrConfirm := if wc then 1 else 0]),
     Raw(reg), Raw(0), Raw(val)]
  }

  lemma WriteDataToRegDecodes(engSel: nat, wc: bool, reg: u32, val: u32)
    ensures DecodePacket(WriteDataToRegPacket(engSel, wc, reg, val)) ==
            Some(WriteDataCmd(engSel, 0, wc, reg, 0, val))
  {
  }

  /** gfx_v10_0_wait_reg_mem: wait until (value & mask) equals ref (function 3). */
  function WaitRegMemPacket(engSel: nat, memSpace: nat, opt: nat, addr0: u32, addr1: u32,
                            ref: u32, mask: u32, inv: u32): (r: seq<Word>)
    ensures Framed(r) && |r| == 7
  {
    [Header(WaitRegMem, 5),
     Fields(WaitRegMem, map[MemSpace := memSpace, Operation := opt, Function := 3,
                            EngineSel := engSel]),
     Raw(addr0), Raw(addr1), Raw(ref), Raw(mask), Raw(inv)]
  }

  lemma WaitRegMemDecodes(engSel: nat, memSpace: nat, opt: nat, addr0: u32, addr1: u32,
                          ref: u32, mask: u32, inv: u32)
    ensures DecodePacket(WaitRegMemPacket(engSel, memSpace, opt, addr0, addr1, ref, mask, inv)) ==
            Some(WaitRegMemCmd(memSpace, opt, 3, engSel, addr0, addr1, ref, mask, inv))
  {
  }

  /** The cache actions and event of the RELEASE_MEM that gfx_v10_0_ring_emit_fence sends. */
  const FenceEvent: map<Field, int> :=
    map[GcrSeq := 1, GcrGl2Wb := 1, GcrGlmInv := 1, GcrGlmWb := 1, CachePolicy := 3,
        EventTypeCacheFlushAndInvTs := 1, EventIndex := 5]

  /** gfx_v10_0_ring_emit_fence, with the flags already resolved. */
  function FencePacket(addr: u64, seqNo: u64, write64: bool, intSel: bool): (r: seq<Word>)
    ensures Framed(r) && |r| == 8
  {
    [Header(ReleaseMem, 6),
     Fields(ReleaseMem, FenceEvent),
     Fields(ReleaseMem, map[DataSel := if write64 then 2 else 1, IntSel := if intSel then 2 else 0]),
     Raw(Lo(addr)), Raw(Hi(addr)), Raw(Lo(seqNo)), Raw(Hi(seqNo)), Raw(0)]
  }

  /** The fence writes seq at addr, 64 bits wide (data select 2) or 32 (1), interrupting when asked (2). */
  lemma FenceDecodes(addr: u64, seqNo: u64, write64: bool, intSel: bool)
    ensures DecodePacket(FencePacket(addr, seqNo, write64, intSel)) ==
            Some(ReleaseMemCmd(FenceEvent, if write64 then 2 else 1, if intSel then 2 else 0, addr, seqNo))
  {
    JoinLoHi(addr);
    JoinLoHi(seqNo);
  }

  /** SOC15_REG_OFFSET(GC, 0, mmCPC_INT_STATUS): its value is not part of this model. */
  datatype KiqFenceRegs = KiqFenceRegs(cpcIntStatus: u32)

  /** gfx_v10_0_ring_emit_fence_kiq */
  function FenceKiqPacket(addr: u64, seqNo: u64, interrupt: bool, regs: KiqFenceRegs): (r: seq<Word>)
    ensures |r| == if interrupt then 10 else 5
  {
    [Header(WriteData, 3),
     Fields(WriteData, map[EngineSel := 0, DstSel := 5, WrConfirm := 1]),
     Raw(Lo(addr)), Raw(Hi(addr)), Raw(Lo(seqNo))]
    + (if interrupt then
         [Header(WriteData, 3),
          Fields(WriteData, map[EngineSel := 0, DstSel := 0, WrConfirm := 1]),
          Raw(regs.cpcIntStatus), Raw(0), Raw(0x20000000)]
       else [])
  }

  /**
   * The KIQ fence is a confirmed memory write (destination 5) of the low 32
   * bits of seq, followed, when an interrupt is wanted, by a confirmed
   * register write of 0x20000000 to CPC_INT_STATUS.
   */
  lemma FenceKiqDecodes(addr: u64, seqNo: u64, interrupt: bool, regs: KiqFenceRegs)
    ensures DecodeStream(FenceKiqPacket(addr, seqNo, interrupt, regs)) ==
            Some([WriteDataCmd(0, 5, true, Lo(addr), Hi(addr), Lo(seqNo))] +
                 (if interrupt then [WriteDataCmd(0, 0, true, regs.cpcIntStatus, 0, 0x20000000)]
                  else []))
  {
    var first := FenceKiqPacket(addr, seqNo, false, regs);
    var c := WriteDataCmd(0, 5, true, Lo(addr), Hi(addr), Lo(seqNo));
    assert DecodePacket(first) == Some(c);
    if interrupt {
      var second := [Header(WriteData, 3),
                     Fields(WriteData, map[EngineSel := 0, DstSel := 0, WrConfirm := 1]),
                     Raw(regs.cpcIntStatus), Raw(0), Raw(0x20000000)];
      var c2 := WriteDataCmd(0, 0, true, regs.cpcIntStatus, 0, 0x20000000);
      assert DecodePacket(second) == Some(c2);
      DecodeStreamCons(second, [], c2, []);
      assert second + [] == second && [c2] + [] == [c2];
      DecodeStreamCons(first, second, c, [c2]);
      assert FenceKiqPacket(addr, seqNo, interrupt, regs) == first + second;
    } else {
      DecodeStreamCons(first, [], c, []);
      assert first + [] == first && [c] + [] == [c];
    }
  }

  /** The COND_EXEC packet of gfx_v10_0_ring_emit_init_cond_exec; its last word is patched later. */
  function CondExecPacket(condExeGpuAddr: u64): (r: seq<Word>)
    ensures Framed(r) && |r| == 5
  {
    [Header(CondExec, 3), Raw(Lo(condExeGpuAddr)), Raw(Hi(condExeGpuAddr)), Raw(0),
     Raw(CondExecPlaceholder)]
  }

  const CondExecPlaceholder: u32 := 0x55aa55aa

  /** The SET_UCONFIG_REG packet of gfx_v10_0_ring_test_ring. */
  function RingTestPacket(scratch: u32, uconfigStart: u32): (r: seq<Word>)
    ensures Framed(r) && |r| == 3
  {
    [Header(SetUconfigReg, 1), Raw(Sub32(scratch, uconfigStart)), Raw(0xDEADBEEF)]
  }

  lemma RingTestDecodes(scratch: u32, uconfigStart: u32)
    ensures DecodePacket(RingTestPacket(scratch, uconfigStart)) ==
            Some(SetUconfigRegCmd(Sub32(scratch, uconfigStart), 0xDEADBEEF))
  {
  }
}
