/**
 * Queue set-up: where gfx_v10_0_gfx_ring_init / _compute_ring_init place
 * each ring (doorbell, end-of-pipe buffer, interrupt source), and the
 * descriptor lifecycle of gfx_v10_0_gfx_init_queue, _kiq_init_queue and
 * _kcq_init_queue.
 *
 * Each init_queue makes a three-way choice. On a fresh start the
 * descriptor is rebuilt from scratch and, when a backup buffer exists,
 * copied into it; during a GPU reset the descriptor is restored from the
 * backup and the ring is emptied; on resume from suspend only the ring is
 * emptied. The choice is the pure function InitStep; the methods are
 * proved to follow it.
 */
module Queues {
  import opened Words
  import opened Rings
  import opened Mqds
  import opened Bits

  const AMDGPU_MAX_GFX_RINGS: nat := 2
  const AMDGPU_MAX_COMPUTE_RINGS: nat := 8

  // ---------------------------------------------------------------------------
  // Ring placement

  /** Where a compute ring's hardware resources are. */
  datatype ComputePlace = ComputePlace(me: nat, pipe: nat, queue: nat, doorbellIndex: nat,
                                     eopGpuAddr: nat, irqOffset: nat)

  /**
   * gfx_v10_0_compute_ring_init: MEC mec is ME mec + 1; the ring's doorbell
   * is (mec_ring0 + ring_id) << 1, its end-of-pipe buffer the ring_id-th
   * GFX10_MEC_HPD_SIZE block of the shared buffer, and its interrupt source
   * counted from AMDGPU_CP_IRQ_COMPUTE_MEC1_PIPE0_EOP by pipe within MEC.
   */
  function ComputeRingInit(mecRing0: nat, hpdEopGpuAddr: nat, numPipePerMec: nat,
                           ringId: nat, mec: nat, pipe: nat, queue: nat): (s: ComputePlace)
    ensures s.me == mec + 1 && s.pipe == pipe && s.queue == queue
  {
    ComputePlace(mec + 1, pipe, queue, (mecRing0 + ringId) * 2,
                hpdEopGpuAddr + ringId * GFX10_MEC_HPD_SIZE,
                (mec + 1 - 1) * numPipePerMec + pipe)
  }

  /**
   * Two different compute rings never share a doorbell (and leave the odd
   * doorbell between them free), their end-of-pipe buffers do not overlap,
   * and pipes of different (mec, pipe) get different interrupt sources.
   */
  lemma ComputeRingsDisjoint(mecRing0: nat, hpd: nat, numPipePerMec: nat,
                             id1: nat, mec1: nat, pipe1: nat, q1: nat,
                             id2: nat, mec2: nat, pipe2: nat, q2: nat)
    requires id1 != id2
    requires pipe1 < numPipePerMec && pipe2 < numPipePerMec
    ensures var a, b := ComputeRingInit(mecRing0, hpd, numPipePerMec, id1, mec1, pipe1, q1),
                        ComputeRingInit(mecRing0, hpd, numPipePerMec, id2, mec2, pipe2, q2);
            a.doorbellIndex % 2 == 0
            && (a.doorbellIndex < b.doorbellIndex ==> a.doorbellIndex + 2 <= b.doorbellIndex)
            && a.doorbellIndex != b.doorbellIndex
            && (a.eopGpuAddr + GFX10_MEC_HPD_SIZE <= b.eopGpuAddr
                || b.eopGpuAddr + GFX10_MEC_HPD_SIZE <= a.eopGpuAddr)
            && ((mec1, pipe1) != (mec2, pipe2) ==> a.irqOffset != b.irqOffset)
  {
    if id1 < id2 {
      MulMonotone(id1 + 1, id2, GFX10_MEC_HPD_SIZE);
    } else {
      MulMonotone(id2 + 1, id1, GFX10_MEC_HPD_SIZE);
    }
    if (mec1, pipe1) != (mec2, pipe2) && mec1 != mec2 {
      if mec1 < mec2 {
        MulMonotone(mec1 + 1, mec2, numPipePerMec);
      } else {
        MulMonotone(mec2 + 1, mec1, numPipePerMec);
      }
    }
  }

  lemma MulMonotone(a: nat, b: nat, c: nat)
    requires a <= b
    ensures a * c <= b * c
  {
    if a < b {
      MulAtLeast(b - a, c);
      assert b * c == a * c + (b - a) * c;
    }
  }

  /** gfx_v10_0_gfx_ring_init: ring 0 and every other ring take gfx_ring0 and gfx_ring1 doorbells. */
  function GfxRingDoorbell(gfxRing0: nat, gfxRing1: nat, ringId: nat): (d: nat)
    ensures d % 2 == 0
    ensures ringId == 0 ==> d == gfxRing0 * 2
    ensures ringId != 0 ==> d == gfxRing1 * 2
  {
    if ringId == 0 then gfxRing0 * 2 else gfxRing1 * 2
  }

  // ---------------------------------------------------------------------------
  // Descriptor lifecycle

  datatype InitPath = FreshInit | ResetRestore | ResumeClear

  /** The branch gfx_init_queue and kcq_init_queue take: a reset wins over a suspend. */
  function QueuePath(inGpuReset: bool, inSuspend: bool): (p: InitPath)
    ensures p == FreshInit <==> !inGpuReset && !inSuspend
    ensures p == ResetRestore <==> inGpuReset
    ensures p == ResumeClear <==> !inGpuReset && inSuspend
  {
    if !inGpuReset && !inSuspend then FreshInit
    else if inGpuReset then ResetRestore
    else ResumeClear
  }

  /** The branch kiq_init_queue takes: it has no suspend branch. */
  function KiqPath(inGpuReset: bool): (p: InitPath)
    ensures p != ResumeClear
    ensures p == ResetRestore <==> inGpuReset
  {
    if inGpuReset then ResetRestore else FreshInit
  }

  /** A queue's descriptor and its backup buffer (None when no buffer was allocated). */
  datatype QueueState<M> = QueueState(mqd: M, backup: Option<M>)

  /** The descriptor and backup after one init_queue, `built` being what mqd_init builds. */
  function InitStep<M>(path: InitPath, s: QueueState<M>, built: M): QueueState<M> {
    match path
    case FreshInit => QueueState(built, if s.backup.Some? then Some(built) else None)
    case ResetRestore => QueueState(if s.backup.Some? then s.backup.value else s.mqd, s.backup)
    case ResumeClear => s
  }

  /**
   * A fresh init followed, after any use of the descriptor, by a reset
   * brings back exactly the descriptor the fresh init built, provided a
   * backup buffer exists; without one the reset keeps whatever is there.
   */
  lemma ResetRestoresFreshInit<M>(s: QueueState<M>, built: M, later: M, built2: M)
    ensures var t := InitStep(FreshInit, s, built);
            var r := InitStep(ResetRestore, t.(mqd := later), built2);
            (s.backup.Some? ==> r.mqd == built && r.backup == Some(built))
            && (s.backup.None? ==> r.mqd == later && r.backup == None)
  {
  }

  /** Resume leaves descriptor and backup alone; a second reset changes nothing more. */
  lemma InitStepStable<M>(s: QueueState<M>, f: M, g: M)
    ensures InitStep(ResumeClear, s, f) == s
    ensures InitStep(ResetRestore, InitStep(ResetRestore, s, f), g) == InitStep(ResetRestore, s, f)
    ensures InitStep(FreshInit, InitStep(FreshInit, s, f), f) == InitStep(FreshInit, s, f)
  {
  }

  /** The backup after any step is present exactly when it was present before. */
  lemma InitStepKeepsBackupPresence<M>(path: InitPath, s: QueueState<M>, f: M)
    ensures InitStep(path, s, f).backup.Some? == s.backup.Some?
    ensures InitStep(path, s, f).backup.Some? ==>
              InitStep(path, s, f).backup.value == (if path == FreshInit then f else s.backup.value)
  {
  }

  /** A ring together with the descriptor its mqd_ptr points at. */
  class Queue<M> {
    const ring: Ring
    var mqd: M

    constructor (ring: Ring, mqd: M)
      ensures this.ring == ring && this.mqd == mqd
    {
      this.ring := ring;
      this.mqd := mqd;
    }
  }

  /**
   * The common body of the three init_queue functions: the descriptor and
   * backup slot follow InitStep; a fresh init and a reset zero the write
   * pointer (mqd_init does it on the fresh path); a reset and a resume
   * clear the ring to NOPs, a fresh init leaves it alone.
   */
  method InitQueue<M>(q: Queue<M>, backups: array<Option<M>>, slot: nat, path: InitPath, built: M)
    requires q.ring.Valid() && slot < backups.Length
    modifies q`mqd, q.ring`wptr, q.ring.buf, backups
    ensures var r := InitStep(path, QueueState(old(q.mqd), old(backups[slot])), built);
            q.mqd == r.mqd && backups[..] == old(backups[..])[slot := r.backup]
    ensures q.ring.wptr == if path == ResumeClear then old(q.ring.wptr) else 0
    ensures path == FreshInit ==> q.ring.buf[..] == old(q.ring.buf[..])
    ensures path != FreshInit ==> forall i :: 0 <= i < q.ring.buf.Length ==> q.ring.buf[i] == RingNop
  {
    match path
    case FreshInit =>
      q.mqd := built;
      q.ring.wptr := 0;
      if backups[slot].Some? {
        backups[slot] := Some(q.mqd);
      }
    case ResetRestore =>
      if backups[slot].Some? {
        q.mqd := backups[slot].value;
      }
      q.ring.wptr := 0;
      q.ring.Clear();
    case ResumeClear =>
      q.ring.Clear();
  }

  /**
   * gfx_v10_0_gfx_init_queue as written: every gfx ring uses backup slot
   * AMDGPU_MAX_GFX_RINGS, the one after the gfx rings' own.
   */
  method GfxInitQueue(q: Queue<GfxMqd>, backups: array<Option<GfxMqd>>,
                      inGpuReset: bool, inSuspend: bool, rd: GfxReads)
    requires q.ring.Valid()
    requires backups.Length == AMDGPU_MAX_GFX_RINGS + 1
    modifies q`mqd, q.ring`wptr, q.ring.buf, backups
    ensures var path := QueuePath(inGpuReset, inSuspend);
            var r := InitStep(path, QueueState(old(q.mqd), old(backups[AMDGPU_MAX_GFX_RINGS])),
                              GfxMqdInit(q.ring.info, rd));
            q.mqd == r.mqd && backups[..] == old(backups[..])[AMDGPU_MAX_GFX_RINGS := r.backup]
    ensures q.ring.wptr == if !inGpuReset && inSuspend then old(q.ring.wptr) else 0
    ensures !inGpuReset && !inSuspend ==> q.ring.buf[..] == old(q.ring.buf[..])
    ensures inGpuReset || inSuspend ==> forall i :: 0 <= i < q.ring.buf.Length ==> q.ring.buf[i] == RingNop
  {
    InitQueue(q, backups, AMDGPU_MAX_GFX_RINGS, QueuePath(inGpuReset, inSuspend),
              GfxMqdInit(q.ring.info, rd));
  }

  /**
   * gfx_v10_0_gfx_init_queue with the backup slot of each gfx ring its own
   * index among the gfx rings, as gfx_v10_0_kcq_init_queue does for the
   * compute rings.
   */
  method GfxInitQueuePerRing(q: Queue<GfxMqd>, backups: array<Option<GfxMqd>>, ringIndex: nat,
                             inGpuReset: bool, inSuspend: bool, rd: GfxReads)
    requires q.ring.Valid() && ringIndex < AMDGPU_MAX_GFX_RINGS
    requires backups.Length == AMDGPU_MAX_GFX_RINGS + 1
    modifies q`mqd, q.ring`wptr, q.ring.buf, backups
    ensures var path := QueuePath(inGpuReset, inSuspend);
            var r := InitStep(path, QueueState(old(q.mqd), old(backups[ringIndex])),
                              GfxMqdInit(q.ring.info, rd));
            q.mqd == r.mqd && backups[..] == old(backups[..])[ringIndex := r.backup]
    ensures q.ring.wptr == if !inGpuReset && inSuspend then old(q.ring.wptr) else 0
    ensures !inGpuReset && !inSuspend ==> q.ring.buf[..] == old(q.ring.buf[..])
    ensures inGpuReset || inSuspend ==> forall i :: 0 <= i < q.ring.buf.Length ==> q.ring.buf[i] == RingNop
  {
    InitQueue(q, backups, ringIndex, QueuePath(inGpuReset, inSuspend),
              GfxMqdInit(q.ring.info, rd));
  }

  /** gfx_v10_0_kcq_init_queue: the backup slot is the ring's index among the compute rings. */
  method KcqInitQueue(q: Queue<ComputeMqd>, backups: array<Option<ComputeMqd>>, ringIndex: nat,
                      inGpuReset: bool, inSuspend: bool, rd: ComputeReads)
    requires q.ring.Valid() && ringIndex < AMDGPU_MAX_COMPUTE_RINGS
    requires backups.Length == AMDGPU_MAX_COMPUTE_RINGS + 1
    modifies q`mqd, q.ring`wptr, q.ring.buf, backups
    ensures var path := QueuePath(inGpuReset, inSuspend);
            var r := InitStep(path, QueueState(old(q.mqd), old(backups[ringIndex])),
                              ComputeMqdInit(q.ring.info, rd));
            q.mqd == r.mqd && backups[..] == old(backups[..])[ringIndex := r.backup]
    ensures q.ring.wptr == if !inGpuReset && inSuspend then old(q.ring.wptr) else 0
    ensures !inGpuReset && !inSuspend ==> q.ring.buf[..] == old(q.ring.buf[..])
    ensures inGpuReset || inSuspend ==> forall i :: 0 <= i < q.ring.buf.Length ==> q.ring.buf[i] == RingNop
  {
    InitQueue(q, backups, ringIndex, QueuePath(inGpuReset, inSuspend),
              ComputeMqdInit(q.ring.info, rd));
  }

  /**
   * gfx_v10_0_kiq_init_queue: the KIQ's backup is the slot after the
   * compute rings'. It first runs gfx_v10_0_kiq_setting, whose two writes
   * to RLC_CP_SCHEDULERS (from the value schedRead read there) are
   * returned as `sched`; kiq_init_register is not modelled.
   */
  method KiqInitQueue(q: Queue<ComputeMqd>, backups: array<Option<ComputeMqd>>,
                      inGpuReset: bool, rd: ComputeReads, schedRead: bv32)
    returns (sched: seq<bv32>)
    requires q.ring.Valid()
    requires backups.Length == AMDGPU_MAX_COMPUTE_RINGS + 1
    modifies q`mqd, q.ring`wptr, q.ring.buf, backups
    ensures var r := InitStep(KiqPath(inGpuReset),
                              QueueState(old(q.mqd), old(backups[AMDGPU_MAX_COMPUTE_RINGS])),
                              ComputeMqdInit(q.ring.info, rd));
            q.mqd == r.mqd && backups[..] == old(backups[..])[AMDGPU_MAX_COMPUTE_RINGS := r.backup]
    ensures q.ring.wptr == 0
    ensures !inGpuReset ==> q.ring.buf[..] == old(q.ring.buf[..])
    ensures inGpuReset ==> forall i :: 0 <= i < q.ring.buf.Length ==> q.ring.buf[i] == RingNop
    ensures sched == KiqSchedulerWrites(schedRead, Lo(q.ring.info.me) as bv32,
                                        Lo(q.ring.info.pipe) as bv32, Lo(q.ring.info.queue) as bv32)
  {
    sched := KiqSchedulerWrites(schedRead, Lo(q.ring.info.me) as bv32,
                                Lo(q.ring.info.pipe) as bv32, Lo(q.ring.info.queue) as bv32);
    InitQueue(q, backups, AMDGPU_MAX_COMPUTE_RINGS, KiqPath(inGpuReset), ComputeMqdInit(q.ring.info, rd));
  }

  // ---------------------------------------------------------------------------
  // The shared gfx backup slot

  /**
   * Ring 0's descriptor after: fresh init of ring 0 (building m0), fresh
   * init of ring 1 (building m1), some use of ring 0's descriptor, and a
   * reset of ring 0, the rings using backup slots slot0 and slot1.
   */
  function Ring0AfterReset<M>(backups: seq<Option<M>>, slot0: nat, slot1: nat,
                              old0: M, old1: M, m0: M, m1: M, used0: M, rebuilt: M): M
    requires slot0 < |backups| && slot1 < |backups|
  {
    var a := InitStep(FreshInit, QueueState(old0, backups[slot0]), m0);
    var b1 := backups[slot0 := a.backup];
    var c := InitStep(FreshInit, QueueState(old1, b1[slot1]), m1);
    var b2 := b1[slot1 := c.backup];
    InitStep(ResetRestore, QueueState(used0, b2[slot0]), rebuilt).mqd
  }

  /** As written, resetting ring 0 installs ring 1's descriptor whenever the shared slot has a buffer. */
  lemma GfxSharedBackupRestoresOtherRing<M>(backups: seq<Option<M>>, old0: M, old1: M,
                                            m0: M, m1: M, used0: M, rebuilt: M)
    requires |backups| == AMDGPU_MAX_GFX_RINGS + 1
    requires backups[AMDGPU_MAX_GFX_RINGS].Some?
    ensures Ring0AfterReset(backups, AMDGPU_MAX_GFX_RINGS, AMDGPU_MAX_GFX_RINGS,
                            old0, old1, m0, m1, used0, rebuilt) == m1
  {
  }

  /** With a slot per ring, resetting ring 0 installs ring 0's own descriptor again. */
  lemma GfxPerRingBackupRestoresOwn<M>(backups: seq<Option<M>>, old0: M, old1: M,
                                       m0: M, m1: M, used0: M, rebuilt: M)
    requires |backups| == AMDGPU_MAX_GFX_RINGS + 1
    requires backups[0].Some?
    ensures Ring0AfterReset(backups, 0, 1,
                            old0, old1, m0, m1, used0, rebuilt) == m0
  {
  }
}
