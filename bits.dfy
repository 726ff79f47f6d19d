/**
 * Small bit helpers of the driver: the active-CU bitmap of a shader array,
 * the GDS ordered-append (OA) mask and the KIQ selector byte written into
 * RLC_CP_SCHEDULERS. These are 32-bit C expressions, so they are modelled
 * on bv32, where shifts and masks wrap exactly as the C code does.
 */
module Bits {
  import opened Words

  /** Bit i of x. */
  predicate BitSet(x: bv32, i: bv32)
    requires i < 32
  {
    (x >> i) & 1 == 1
  }

  /** The two bits 2i and 2i+1 of x, as a number 0..3. */
  function Pair(x: bv32, i: bv32): (p: bv32)
    requires i < 16
    ensures p < 4
  {
    (x >> (2 * i)) & 3
  }

  /**
   * amdgpu_gfx_create_bitmask(n): (1 << n) - 1 in 64 bits, truncated to 32,
   * so every bit is set from n = 32 on; a shift by 64 or more is undefined.
   */
  function CreateBitmask(n: bv32): (m: bv32)
    requires n < 64
  {
    if n >= 32 then 0xffff_ffff else (1 << n) - 1
  }

  /** Bit i of create_bitmask(n) is set exactly for i < n. */
  lemma CreateBitmaskBit(n: bv32, i: bv32)
    requires n < 64 && i < 32
    ensures BitSet(CreateBitmask(n), i) <==> i < n
  {
  }

  /** The INACTIVE_WGPS field of a shader-array config value (mask and shift from the register headers). */
  function InactiveWgps(config: bv32, inactiveMask: bv32, inactiveShift: bv32): (f: bv32)
    requires inactiveShift < 32
  {
    (config & inactiveMask) >> inactiveShift
  }

  /**
   * gfx_v10_0_get_wgp_active_bitmap_per_sh: the inactive-WGP field of the
   * OR of the two shader-array config reads, complemented and limited to
   * max_cu_per_sh / 2 WGPs.
   */
  function WgpActiveBitmap(ccConfig: bv32, userConfig: bv32, inactiveMask: bv32, inactiveShift: bv32,
                           maxCuPerSh: bv32): (w: bv32)
    requires inactiveShift < 32 && (maxCuPerSh >> 1) < 64
  {
    var data := InactiveWgps(ccConfig | userConfig, inactiveMask, inactiveShift);
    (!data) & CreateBitmask(maxCuPerSh >> 1)
  }

  /** Masking and shifting distribute over the OR of the two reads. */
  lemma InactiveWgpsOr(a: bv32, b: bv32, inactiveMask: bv32, inactiveShift: bv32)
    requires inactiveShift < 32
    ensures InactiveWgps(a | b, inactiveMask, inactiveShift) ==
            InactiveWgps(a, inactiveMask, inactiveShift) | InactiveWgps(b, inactiveMask, inactiveShift)
  {
  }

  /**
   * The active WGPs are exactly the WGPs inside create_bitmask(max_cu_per_sh
   * / 2) that neither config read marks inactive: the bitmap shares no bit
   * with either inactive field or with the bits outside the mask, and every
   * bit lies in the bitmap or in one of those.
   */
  lemma WgpActiveBits(ccConfig: bv32, userConfig: bv32, inactiveMask: bv32, inactiveShift: bv32,
                      maxCuPerSh: bv32)
    requires inactiveShift < 32 && (maxCuPerSh >> 1) < 64
    ensures var w := WgpActiveBitmap(ccConfig, userConfig, inactiveMask, inactiveShift, maxCuPerSh);
            var cc := InactiveWgps(ccConfig, inactiveMask, inactiveShift);
            var user := InactiveWgps(userConfig, inactiveMask, inactiveShift);
            var outside := !CreateBitmask(maxCuPerSh >> 1);
            w & (cc | user | outside) == 0 && w | cc | user | outside == 0xffff_ffff
  {
    WgpActiveDisjoint(ccConfig, userConfig, inactiveMask, inactiveShift, maxCuPerSh);
    WgpActiveCovers(ccConfig, userConfig, inactiveMask, inactiveShift, maxCuPerSh);
  }

  /** No active WGP is inactive in either read or lies beyond the mask. */
  lemma WgpActiveDisjoint(ccConfig: bv32, userConfig: bv32, inactiveMask: bv32, inactiveShift: bv32,
                          maxCuPerSh: bv32)
    requires inactiveShift < 32 && (maxCuPerSh >> 1) < 64
    ensures WgpActiveBitmap(ccConfig, userConfig, inactiveMask, inactiveShift, maxCuPerSh) &
            (InactiveWgps(ccConfig, inactiveMask, inactiveShift) | InactiveWgps(userConfig, inactiveMask, inactiveShift) |
             !CreateBitmask(maxCuPerSh >> 1)) == 0
  {
    InactiveWgpsOr(ccConfig, userConfig, inactiveMask, inactiveShift);
  }

  /** Every WGP bit is active, inactive in some read, or beyond the mask. */
  lemma WgpActiveCovers(ccConfig: bv32, userConfig: bv32, inactiveMask: bv32, inactiveShift: bv32,
                        maxCuPerSh: bv32)
    requires inactiveShift < 32 && (maxCuPerSh >> 1) < 64
    ensures WgpActiveBitmap(ccConfig, userConfig, inactiveMask, inactiveShift, maxCuPerSh) |
            InactiveWgps(ccConfig, inactiveMask, inactiveShift) | InactiveWgps(userConfig, inactiveMask, inactiveShift) |
            !CreateBitmask(maxCuPerSh >> 1) == 0xffff_ffff
  {
    InactiveWgpsOr(ccConfig, userConfig, inactiveMask, inactiveShift);
  }

  /** The source's test of WGP i, wgp & (1 << i), is bit i. */
  lemma MaskTest(x: bv32, i: bv32)
    requires i < 32
    ensures x & (1 << i) != 0 <==> BitSet(x, i)
  {
  }

  /**
   * One more WGP: when the pairs below k hold the CUs of the active WGPs
   * below k and the others are clear, OR-ing in the pair of WGP k when it
   * is active extends this to the WGPs up to k.
   */
  lemma PairsStep(a: bv32, wgp: bv32, k: bv32, i: bv32)
    requires k < 16 && i < 16
    requires Pair(a, i) == if i < k && BitSet(wgp, i) then 3 else 0
    ensures Pair(a | (if BitSet(wgp, k) then 3 << (2 * k) else 0), i) ==
            if i < k + 1 && BitSet(wgp, i) then 3 else 0
  {
  }

  /** The loop invariant of CuActiveBitmap: the pairs below k are set for active WGPs, the rest clear. */
  ghost predicate PairsBelow(cu: bv32, wgp: bv32, k: bv32) {
    forall i: bv32 {:trigger Pair(cu, i)} :: i < 16 ==> Pair(cu, i) == if i < k && BitSet(wgp, i) then 3 else 0
  }

  lemma PairsBelowStep(cu: bv32, wgp: bv32, k: bv32)
    requires k < 16 && PairsBelow(cu, wgp, k)
    ensures PairsBelow(cu | (if BitSet(wgp, k) then 3 << (2 * k) else 0), wgp, k + 1)
  {
    var next := cu | (if BitSet(wgp, k) then 3 << (2 * k) else 0);
    forall i: bv32 | i < 16
      ensures Pair(next, i) == if i < k + 1 && BitSet(wgp, i) then 3 else 0
    {
      PairsStep(cu, wgp, k, i);
    }
  }

  /**
   * gfx_v10_0_get_cu_active_bitmap_per_sh after the WGP bitmap is read: one
   * pass over the 16 WGPs, OR-ing in the CU pair of each active one. Every
   * active WGP yields its two CUs and no other CU bit is set.
   */
  method CuActiveBitmap(wgp: bv32) returns (cu: bv32)
    ensures forall i: bv32 {:trigger Pair(cu, i)} :: i < 16 ==>
              Pair(cu, i) == if BitSet(wgp, i) then 3 else 0
  {
    cu := 0;
    var idx: bv32 := 0;
    while idx < 16
      invariant idx <= 16
      invariant PairsBelow(cu, wgp, idx)
    {
      var perWgp: bv32 := 3 << (2 * idx);
      ghost var prev := cu;
      MaskTest(wgp, idx);
      if wgp & (1 << idx) != 0 {
        cu := cu | perWgp;
      }
      PairsBelowStep(prev, wgp, idx);
      assert cu == prev | (if BitSet(wgp, idx) then 3 << (2 * idx) else 0);
      idx := idx + 1;
    }
  }

  /**
   * The OA mask written into GDS_OA_VMID0: (1 << (oa_size + oa_base)) -
   * (1 << oa_base), a C int expression; the sum stays below 31 so the
   * shift is defined.
   */
  function OaMask(oaSize: bv32, oaBase: bv32): (m: bv32)
    requires oaSize < 31 && oaBase < 31 && oaSize + oaBase < 31
  {
    (1 << (oaSize + oaBase)) - (1 << oaBase)
  }

  /** The OA mask sets exactly the oa_size bits starting at bit oa_base. */
  lemma OaMaskBits(oaSize: bv32, oaBase: bv32, k: bv32)
    requires oaSize < 31 && oaBase < 31 && oaSize + oaBase < 31 && k < 32
    ensures BitSet(OaMask(oaSize, oaBase), k) <==> oaBase <= k < oaBase + oaSize
  {
  }

  /**
   * gfx_v10_0_kiq_setting: the two values written to RLC_CP_SCHEDULERS. The
   * low byte of the value read is replaced by (me << 5) | (pipe << 3) |
   * queue; the second write also sets bit 7.
   */
  function KiqSchedulerWrites(read: bv32, me: bv32, pipe: bv32, queue: bv32): (ws: seq<bv32>)
    ensures |ws| == 2
  {
    var tmp := (read & 0xffff_ff00) | (me << 5) | (pipe << 3) | queue;
    [tmp, tmp | 0x80]
  }

  /**
   * For a KIQ at me < 4, pipe < 4, queue < 8 both writes keep the upper 24
   * bits of the value read, carry queue in bits 0-2, pipe in bits 3-4 and
   * me in bits 5-6, and differ only in bit 7, clear in the first and set
   * in the second.
   */
  lemma KiqSchedulerFields(read: bv32, me: bv32, pipe: bv32, queue: bv32)
    requires me < 4 && pipe < 4 && queue < 8
    ensures var ws := KiqSchedulerWrites(read, me, pipe, queue);
            ws[0] & 0xffff_ff00 == read & 0xffff_ff00 &&
            ws[0] & 7 == queue && (ws[0] >> 3) & 3 == pipe && (ws[0] >> 5) & 3 == me &&
            ws[0] & 0x80 == 0 && ws[1] == ws[0] | 0x80
  {
  }
}
