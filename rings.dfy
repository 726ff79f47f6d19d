/**
 * Ring buffers: a power-of-two array of command words and a write pointer
 * that only grows. amdgpu_ring_write stores a word at `wptr & buf_mask` and
 * advances wptr; with buf_mask + 1 a power of two the mask is the remainder
 * modulo the ring size, which is how the model writes it.
 */
module Rings {
  import opened Words

  datatype RingKind = GfxRing | ComputeRing | KiqRing

  /** What the driver knows about a ring besides its contents. */
  datatype RingInfo = RingInfo(
    kind: RingKind,
    me: nat, pipe: nat, queue: nat,
    useDoorbell: bool, doorbellIndex: u32,
    gpuAddr: u64,          // ring buffer address
    ringSize: nat,         // bytes
    eopGpuAddr: u64,
    mqdGpuAddr: u64,       // amdgpu_bo_gpu_offset(ring->mqd_obj)
    wbGpuAddr: u64,        // the device's write-back page (adev->wb.gpu_addr)
    rptrOffs: nat, wptrOffs: nat,
    condExeGpuAddr: u64,
    trailFenceGpuAddr: u64)

  /** adev->wb.gpu_addr + offs * 4, in 64-bit arithmetic. */
  function WbAddr(info: RingInfo, offs: nat): (r: u64)
    ensures info.wbGpuAddr + offs * 4 < TWO64 ==> r == info.wbGpuAddr + offs * 4
  {
    Add64(info.wbGpuAddr, offs * 4)
  }

  /** Engine selector of the KIQ packets: 4 for a gfx ring, 0 otherwise. */
  function EngSel(kind: RingKind): (r: nat)
    ensures r == 4 <==> kind == GfxRing
    ensures r == 0 <==> kind != GfxRing
  {
    if kind == GfxRing then 4 else 0
  }

  /** The ring contents after writing ws word by word from write pointer p. */
  function Written(s: seq<Word>, p: nat, ws: seq<Word>): (r: seq<Word>)
    requires |s| > 0
    ensures |r| == |s|
    decreases |ws|
  {
    if ws == [] then s else Written(s[p % |s| := ws[0]], p + 1, ws[1..])
  }

  lemma {:induction false} MulAtLeast(d: nat, n: nat)
    requires d >= 1
    ensures d * n >= n
  {
    if d > 1 {
      MulAtLeast(d - 1, n);
      assert d * n == (d - 1) * n + n;
    }
  }

  lemma MulSign(d: int, n: nat)
    ensures d >= 1 ==> d * n >= n
    ensures d <= -1 ==> d * n <= -(n as int)
  {
    if d >= 1 {
      MulAtLeast(d, n);
    } else if d <= -1 {
      MulAtLeast(-d, n);
      assert d * n == -((-d) * n);
    }
  }

  /** x = q * n + r with 0 <= r < n fixes the remainder. */
  lemma ModUnique(x: int, n: int, q: int, r: int)
    requires n > 0 && 0 <= r < n && x == q * n + r
    ensures x % n == r
  {
    var q', r' := x / n, x % n;
    assert x == q' * n + r';
    MulSign(q' - q, n);
    assert (q' - q) * n == r - r';
  }

  /** The slot after slot p % n is (p + 1) % n, wrapping at n. */
  lemma ModSucc(p: nat, n: nat)
    requires n > 0
    ensures (p + 1) % n == if p % n == n - 1 then 0 else p % n + 1
  {
    var q, r := p / n, p % n;
    assert p == q * n + r;
    if r == n - 1 {
      ModUnique(p + 1, n, q + 1, 0);
    } else {
      ModUnique(p + 1, n, q, r + 1);
    }
  }

  /** How many slots slot k lies after slot a, going forward round a ring of n slots. */
  function Dist(a: nat, k: nat, n: nat): (d: nat)
    requires a < n && k < n
    ensures d < n
  {
    if k >= a then k - a else k + n - a
  }

  /**
   * A packet that fits in the ring lands at consecutive slots from p % n,
   * wrapping at the end; every slot it does not reach keeps its word.
   */
  lemma {:induction false} WrittenAt(s: seq<Word>, p: nat, ws: seq<Word>)
    requires 0 < |s| && |ws| <= |s|
    ensures forall j :: 0 <= j < |ws| ==> Written(s, p, ws)[(p + j) % |s|] == ws[j]
    ensures forall k :: 0 <= k < |s| && Dist(p % |s|, k, |s|) >= |ws| ==>
              Written(s, p, ws)[k] == s[k]
    decreases |ws|
  {
    var n := |s|;
    if ws != [] {
      var s' := s[p % n := ws[0]];
      WrittenAt(s', p + 1, ws[1..]);
      ModSucc(p, n);
      assert Dist((p + 1) % n, p % n, n) == n - 1;
      forall j | 1 <= j < |ws|
        ensures Written(s, p, ws)[(p + j) % n] == ws[j]
      {
        assert (p + 1) + (j - 1) == p + j;
        assert ws[1..][j - 1] == ws[j];
      }
      forall k | 0 <= k < n && Dist(p % n, k, n) >= |ws|
        ensures Written(s, p, ws)[k] == s[k]
      {
        assert Dist((p + 1) % n, k, n) == Dist(p % n, k, n) - 1;
      }
    }
  }

  /** The last word of a write lands at the slot of the last write pointer used. */
  lemma {:induction false} WrittenLast(s: seq<Word>, p: nat, ws: seq<Word>)
    requires 0 < |s| && 0 < |ws|
    ensures Written(s, p, ws)[(p + |ws| - 1) % |s|] == ws[|ws| - 1]
    decreases |ws|
  {
    if |ws| > 1 {
      WrittenLast(s[p % |s| := ws[0]], p + 1, ws[1..]);
    }
  }

  /** From slot q % n, going m < n slots forward lands on (q + m) % n. */
  lemma DistAdvance(q: nat, m: nat, n: nat)
    requires 0 < n && m < n
    ensures Dist(q % n, (q + m) % n, n) == m
  {
    var a, r := q / n, q % n;
    assert q == a * n + r;
    if r + m < n {
      ModUnique(q + m, n, a, r + m);
    } else {
      ModUnique(q + m, n, a + 1, r + m - n);
    }
  }

  /**
   * The word gfx_v10_0_ring_emit_patch_cond_exec stores over the placeholder
   * at `offset` when the last word written is at slot `cur`: the number of
   * slots from the placeholder forward to cur, a full ring when they coincide.
   */
  function CondExecCount(offset: nat, cur: nat, n: nat): (c: nat)
    requires offset < n && cur < n
    ensures 1 <= c <= n
    ensures c % n == (cur - offset) % n
    ensures c == n <==> cur == offset
    ensures cur != offset ==> c == Dist(offset, cur, n)
  {
    if cur > offset then
      cur - offset
    else if cur == offset then
      n
    else
      var c := n - offset + cur;
      ModUnique(cur - offset, n, -1, c);
      ModUnique(c, n, 0, c);
      c
  }

  /**
   * A COND_EXEC whose placeholder went out at write pointer q and was
   * followed by m more words, 0 < m < n, is patched to skip exactly those m
   * words; with no word after it the patch skips a whole ring.
   */
  lemma CondExecSkipsFollowingWords(q: nat, m: nat, n: nat)
    requires 0 < n && m < n
    ensures CondExecCount(q % n, ((q + 1 + m) - 1) % n, n) == if m == 0 then n else m
  {
    DistAdvance(q, m, n);
    assert (q + 1 + m) - 1 == q + m;
  }

  /**
   * align_mask of the gfx, compute and KIQ rings: amdgpu_ring_commit pads
   * with the ring's NOP until the write pointer is a multiple of
   * align_mask + 1 = 256 words.
   */
  const ALIGN_MASK: nat := 0xff

  predicate Aligned(p: nat) {
    p % (ALIGN_MASK + 1) == 0
  }

  /** The NOP count amdgpu_ring_commit inserts at write pointer p. */
  function NopPad(p: nat): nat {
    (ALIGN_MASK + 1 - p % (ALIGN_MASK + 1)) % (ALIGN_MASK + 1)
  }

  /**
   * The padding is the fewest words that bring p to a multiple of 256:
   * none when p already is one, fewer than 256 otherwise.
   */
  lemma NopPadLeast(p: nat)
    ensures NopPad(p) <= ALIGN_MASK
    ensures Aligned(p + NopPad(p))
    ensures forall k :: p <= k < p + NopPad(p) ==> !Aligned(k)
  {
    var q, r := p / (ALIGN_MASK + 1), p % (ALIGN_MASK + 1);
    assert p == q * (ALIGN_MASK + 1) + r;
    var n := NopPad(p);
    if r == 0 {
      ModUnique(ALIGN_MASK + 1, ALIGN_MASK + 1, 1, 0);
    } else {
      ModUnique(ALIGN_MASK + 1 - r, ALIGN_MASK + 1, 0, ALIGN_MASK + 1 - r);
      ModUnique(p + n, ALIGN_MASK + 1, q + 1, 0);
      forall k | p <= k < p + n
        ensures !Aligned(k)
      {
        ModUnique(k, ALIGN_MASK + 1, q, r + (k - p));
      }
    }
  }

  /** n copies of the ring's NOP, as amdgpu_ring_insert_nop writes them. */
  function Nops(n: nat): seq<Word> {
    seq(n, _ => RingNop)
  }

  /**
   * What a caller's words ws, written from write pointer p and followed by
   * amdgpu_ring_commit, put on the ring: ws itself, then NOPs up to the
   * first multiple of 256 words at or after p + |ws|.
   */
  function Padded(p: nat, ws: seq<Word>): (r: seq<Word>)
    ensures |ws| <= |r| <= |ws| + ALIGN_MASK && r[..|ws|] == ws
    ensures forall i :: |ws| <= i < |r| ==> r[i] == RingNop
    ensures Aligned(p + |r|)
    ensures forall k :: p + |ws| <= k < p + |r| ==> !Aligned(k)
  {
    NopPadLeast(p + |ws|);
    var r := ws + Nops(NopPad(p + |ws|));
    assert r[..|ws|] == ws;
    r
  }

  class Ring {
    const info: RingInfo
    const buf: array<Word>
    var wptr: nat
    /** The word at cond_exe_cpu_addr that COND_EXEC packets test. */
    var condExec: bool
    /** Sequence number of the trailing fence used for IB preemption. */
    var trailSeq: u32

    ghost predicate Valid()
      reads this
    {
      // buf_mask + 1 words, a power of two; buf_mask is a 32-bit quantity
      IsPow2(buf.Length) && buf.Length < TWO32
    }

    function BufMask(): (m: nat)
      reads this
      requires Valid()
      ensures m + 1 == buf.Length
    {
      buf.Length - 1
    }

    constructor (info: RingInfo, order: nat, nop: Word)
      requires Pow2(order) < TWO32
      ensures Valid() && fresh(buf)
      ensures this.info == info && buf.Length == Pow2(order)
      ensures wptr == 0 && condExec && trailSeq == 0
      ensures forall i :: 0 <= i < buf.Length ==> buf[i] == nop
    {
      this.info := info;
      buf := new Word[Pow2(order)](_ => nop);
      wptr := 0;
      condExec := true;
      trailSeq := 0;
    }

    /** amdgpu_ring_write: one word at the masked write pointer. */
    method Write(v: Word)
      requires Valid()
      modifies this`wptr, buf
      ensures buf[..] == Written(old(buf[..]), old(wptr), [v])
      ensures wptr == old(wptr) + 1
    {
      buf[wptr % buf.Length] := v;
      wptr := wptr + 1;
    }

    /** A run of amdgpu_ring_write calls, one per word of ws. */
    method WriteAll(ws: seq<Word>)
      requires Valid()
      modifies this`wptr, buf
      ensures buf[..] == Written(old(buf[..]), old(wptr), ws)
      ensures wptr == old(wptr) + |ws|
    {
      var i := 0;
      while i < |ws|
        invariant 0 <= i <= |ws|
        invariant wptr == old(wptr) + i
        invariant Written(buf[..], wptr, ws[i..]) == Written(old(buf[..]), old(wptr), ws)
      {
        ghost var before := buf[..];
        Write(ws[i]);
        assert ws[i..][1..] == ws[i + 1..];
        assert Written(before, wptr - 1, ws[i..]) == Written(buf[..], wptr, ws[i + 1..]);
        i := i + 1;
      }
    }

    /**
     * amdgpu_ring_commit: pad with NOPs to the next multiple of 256 words
     * (amdgpu_ring_insert_nop); the hardware write-pointer update is not modelled.
     */
    method Commit()
      requires Valid()
      modifies this`wptr, buf
      ensures buf[..] == Written(old(buf[..]), old(wptr), Nops(NopPad(old(wptr))))
      ensures wptr == old(wptr) + NopPad(old(wptr)) && Aligned(wptr)
    {
      NopPadLeast(wptr);
      WriteAll(Nops(NopPad(wptr)));
    }

    /** amdgpu_ring_clear_ring: every slot becomes the ring's NOP; wptr is untouched. */
    method Clear()
      requires Valid()
      modifies buf
      ensures forall i :: 0 <= i < buf.Length ==> buf[i] == RingNop
    {
      forall i | 0 <= i < buf.Length {
        buf[i] := RingNop;
      }
    }
  }
}
