/**
 * Interrupt routing: the interrupt vector's ring_id names the micro engine
 * (me), pipe and queue that raised it; the handlers pick the rings to
 * notify. Notifications (amdgpu_fence_process, drm_sched_fault) are the
 * outputs: the gfx and compute ring indices in the order the handler visits
 * them, and whether the KIQ ring is fenced.
 */
module Irq {
  import opened Words
  import opened Rings

  /** The coordinates packed into ring_id. */
  datatype RingCoord = RingCoord(me: nat, pipe: nat, queue: nat)

  /**
   * me = bits 2-3, pipe = bits 0-1, queue = bits 4-6 of ring_id; every other
   * bit is ignored. Masking and shifting a natural number by constant bit
   * positions is division and remainder by powers of two.
   */
  function DecodeRingId(ringId: u32): (c: RingCoord)
    ensures c.me < 4 && c.pipe < 4 && c.queue < 8
  {
    RingCoord((ringId / 4) % 4, ringId % 4, (ringId / 16) % 8)
  }

  /** The ring_id a queue at these coordinates raises. */
  function EncodeRingId(c: RingCoord): (id: u32)
    requires c.me < 4 && c.pipe < 4 && c.queue < 8
    ensures id < 128
  {
    c.queue * 16 + c.me * 4 + c.pipe
  }

  /** Decoding gives back the coordinates that were encoded. */
  lemma DecodeEncode(c: RingCoord)
    requires c.me < 4 && c.pipe < 4 && c.queue < 8
    ensures DecodeRingId(EncodeRingId(c)) == c
  {
    var id := EncodeRingId(c);
    assert id / 4 == c.queue * 4 + c.me;
    assert id / 16 == c.queue;
  }

  predicate RingMatches(r: RingInfo, c: RingCoord, withQueue: bool) {
    r.me == c.me && r.pipe == c.pipe && (withQueue ==> r.queue == c.queue)
  }

  /**
   * The indices below n of the rings at the coordinates c (ignoring the
   * queue unless withQueue), in increasing order.
   */
  function Matching(rs: seq<RingInfo>, n: nat, c: RingCoord, withQueue: bool): (ix: seq<nat>)
    requires n <= |rs|
    ensures forall i :: i in ix <==> 0 <= i < n && RingMatches(rs[i], c, withQueue)
    ensures forall a, b :: 0 <= a < b < |ix| ==> ix[a] < ix[b]
  {
    if n == 0 then []
    else
      var prev := Matching(rs, n - 1, c, withQueue);
      assert forall k :: 0 <= k < |prev| ==> prev[k] < n - 1 by {
        forall k | 0 <= k < |prev|
          ensures prev[k] < n - 1
        {
          assert prev[k] in prev;
        }
      }
      prev + (if RingMatches(rs[n - 1], c, withQueue) then [n - 1] else [])
  }

  /** The rings an interrupt handler notifies: gfx and compute ring indices, and the KIQ. */
  datatype Notified = Notified(gfx: seq<nat>, compute: seq<nat>, kiq: bool)

  /** What gfx_v10_0_eop_irq fences for the decoded coordinates. */
  function EopTargets(c: RingCoord, compute: seq<RingInfo>): Notified {
    if c.me == 0 then Notified([if c.pipe == 0 then 0 else 1], [], false)
    else if c.me == 1 || c.me == 2 then Notified([], Matching(compute, |compute|, c, true), false)
    else Notified([], [], false)
  }

  /**
   * EOP routing: me 0 fences gfx ring 0 for pipe 0 and gfx ring 1 for any
   * other pipe; me 1 or 2 fences exactly the compute rings whose me, pipe
   * and queue all match, each once; me 3 fences nothing.
   */
  lemma EopRouting(ringId: u32, compute: seq<RingInfo>)
    ensures var c := DecodeRingId(ringId);
            var n := EopTargets(c, compute);
            (c.me == 0 ==> n == Notified([if c.pipe == 0 then 0 else 1], [], false)) &&
            (c.me == 1 || c.me == 2 ==>
               n.gfx == [] &&
               (forall i :: i in n.compute <==>
                  0 <= i < |compute| && compute[i].me == c.me && compute[i].pipe == c.pipe && compute[i].queue == c.queue) &&
               (forall a, b :: 0 <= a < b < |n.compute| ==> n.compute[a] != n.compute[b])) &&
            (c.me == 3 ==> n == Notified([], [], false))
  {
    var c := DecodeRingId(ringId);
    if c.me == 1 || c.me == 2 {
      var ix := Matching(compute, |compute|, c, true);
      assert forall a, b :: 0 <= a < b < |ix| ==> ix[a] < ix[b];
    }
  }

  /** When ring j is the only ring at c, Matching picks it out alone. */
  lemma {:induction false} MatchingSingle(rs: seq<RingInfo>, n: nat, c: RingCoord, withQueue: bool, j: nat)
    requires n <= |rs| && j < |rs|
    requires forall i :: 0 <= i < |rs| ==> (RingMatches(rs[i], c, withQueue) <==> i == j)
    ensures Matching(rs, n, c, withQueue) == if j < n then [j] else []
  {
    if n > 0 {
      MatchingSingle(rs, n - 1, c, withQueue, j);
      var last: seq<nat> := if RingMatches(rs[n - 1], c, withQueue) then [n - 1] else [];
      assert Matching(rs, n, c, withQueue) == Matching(rs, n - 1, c, withQueue) + last;
      assert last == if n - 1 == j then [j] else [];
    }
  }

  /**
   * When the compute rings sit at pairwise distinct coordinates, the EOP
   * interrupt a compute ring raises fences that ring and no other.
   */
  lemma EopFencesOwnRing(compute: seq<RingInfo>, j: nat)
    requires j < |compute|
    requires forall a, b :: 0 <= a < b < |compute| ==>
               RingCoord(compute[a].me, compute[a].pipe, compute[a].queue) !=
               RingCoord(compute[b].me, compute[b].pipe, compute[b].queue)
    requires (compute[j].me == 1 || compute[j].me == 2) && compute[j].pipe < 4 && compute[j].queue < 8
    ensures EopTargets(DecodeRingId(EncodeRingId(RingCoord(compute[j].me, compute[j].pipe, compute[j].queue))), compute)
              == Notified([], [j], false)
  {
    var c := RingCoord(compute[j].me, compute[j].pipe, compute[j].queue);
    DecodeEncode(c);
    forall i | 0 <= i < |compute|
      ensures RingMatches(compute[i], c, true) <==> i == j
    {
      if i < j {
        assert RingCoord(compute[i].me, compute[i].pipe, compute[i].queue) != c;
      } else if j < i {
        assert c != RingCoord(compute[i].me, compute[i].pipe, compute[i].queue);
      }
    }
    MatchingSingle(compute, |compute|, c, true, j);
  }

  /**
   * The scan shared by both handlers: visit every ring in index order and
   * keep those at c (the gfx scan compares me and pipe only).
   */
  method CollectMatching(rs: seq<RingInfo>, c: RingCoord, withQueue: bool) returns (ix: seq<nat>)
    ensures ix == Matching(rs, |rs|, c, withQueue)
  {
    ix := [];
    for i := 0 to |rs|
      invariant ix == Matching(rs, i, c, withQueue)
    {
      var ring := rs[i];
      if ring.me == c.me && ring.pipe == c.pipe && (withQueue ==> ring.queue == c.queue) {
        ix := ix + [i];
      }
    }
  }

  /** gfx_v10_0_eop_irq; amdgpu_fence_process calls become the returned indices. */
  method EopIrq(ringId: u32, compute: seq<RingInfo>) returns (n: Notified)
    ensures n == EopTargets(DecodeRingId(ringId), compute)
  {
    var c := DecodeRingId(ringId);
    if c.me == 0 {
      if c.pipe == 0 {
        n := Notified([0], [], false);
      } else {
        n := Notified([1], [], false);
      }
    } else if c.me == 1 || c.me == 2 {
      var fenced := CollectMatching(compute, c, true);
      n := Notified([], fenced, false);
    } else {
      n := Notified([], [], false);
    }
  }

  /** The outcome of gfx_v10_0_handle_priv_fault: faulted rings, or BUG() for an unknown me. */
  datatype FaultOutcome = Faulted(rings: Notified) | Bug

  /** What handle_priv_fault faults for the decoded coordinates. */
  function FaultTargets(c: RingCoord, gfx: seq<RingInfo>, compute: seq<RingInfo>): FaultOutcome {
    if c.me == 0 then Faulted(Notified(Matching(gfx, |gfx|, c, false), [], false))
    else if c.me == 1 || c.me == 2 then Faulted(Notified([], Matching(compute, |compute|, c, true), false))
    else Bug
  }

  /**
   * Fault routing: me 0 faults the gfx rings on me 0 and the given pipe,
   * whatever their queue; me 1 or 2 faults the compute rings matching all
   * three coordinates; me 3 hits BUG().
   */
  lemma FaultRouting(ringId: u32, gfx: seq<RingInfo>, compute: seq<RingInfo>)
    ensures var c := DecodeRingId(ringId);
            var o := FaultTargets(c, gfx, compute);
            (o == Bug <==> c.me == 3) &&
            (c.me == 0 ==>
               o.Faulted? && o.rings.compute == [] &&
               forall i :: i in o.rings.gfx <==> 0 <= i < |gfx| && gfx[i].me == 0 && gfx[i].pipe == c.pipe) &&
            (c.me == 1 || c.me == 2 ==>
               o.Faulted? && o.rings.gfx == [] &&
               forall i :: i in o.rings.compute <==>
                 0 <= i < |compute| && compute[i].me == c.me && compute[i].pipe == c.pipe && compute[i].queue == c.queue)
  {
  }

  /** gfx_v10_0_handle_priv_fault, reached from both priv_reg_irq and priv_inst_irq. */
  method HandlePrivFault(ringId: u32, gfx: seq<RingInfo>, compute: seq<RingInfo>) returns (o: FaultOutcome)
    ensures o == FaultTargets(DecodeRingId(ringId), gfx, compute)
  {
    var c := DecodeRingId(ringId);
    if c.me == 0 {
      var faulted := CollectMatching(gfx, c, false);
      o := Faulted(Notified(faulted, [], false));
    } else if c.me == 1 || c.me == 2 {
      var faulted := CollectMatching(compute, c, true);
      o := Faulted(Notified([], faulted, false));
    } else {
      o := Bug;
    }
  }

  /** What gfx_v10_0_kiq_irq fences: the KIQ ring, whatever the interrupt's coordinates. */
  function KiqTargets(): Notified {
    Notified([], [], true)
  }

  /**
   * KIQ routing: the KIQ interrupt fences the KIQ ring and no gfx or
   * compute ring, and whatever ring_id says, neither the EOP handler nor the
   * fault handler ever fences the KIQ.
   */
  lemma KiqRouting(ringId: u32, gfx: seq<RingInfo>, compute: seq<RingInfo>)
    ensures var c := DecodeRingId(ringId);
            var n := KiqTargets();
            n.kiq && n.gfx == [] && n.compute == [] &&
            !EopTargets(c, compute).kiq &&
            (FaultTargets(c, gfx, compute).Faulted? ==> !FaultTargets(c, gfx, compute).rings.kiq)
  {
  }

  /** gfx_v10_0_kiq_irq; ring_id is decoded (only for the log) and the KIQ is fenced. */
  method KiqIrq(ringId: u32) returns (n: Notified)
    ensures n == KiqTargets()
  {
    var c := DecodeRingId(ringId);
    n := Notified([], [], true);
  }
}
