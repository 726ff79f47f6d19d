/**
 * RLC backdoor autoload: the table of contents (TOC) handed over by the PSP
 * firmware says where each firmware image goes in one staging buffer; the
 * driver records the TOC in the static rlc_autoload_info table, sizes and
 * allocates the staging buffer, copies every image to its slot (clamped to
 * the slot and zero-padded) and then points the RLC bootloader at the RLC_G
 * image.
 *
 * TOC entries count in dwords, rlc_autoload_info in bytes. The FIRMWARE_ID
 * numbering comes from amdgpu_rlc.h, which is not part of this model.
 */
module Autoload {
  import opened Words

  const FIRMWARE_ID_INVALID: nat := 0
  const FIRMWARE_ID_RLC_G_UCODE: nat := 1
  const FIRMWARE_ID_RLC_TOC: nat := 2
  const FIRMWARE_ID_SDMA0_UCODE: nat := 15
  const FIRMWARE_ID_SDMA0_JT: nat := 16
  const FIRMWARE_ID_SDMA1_UCODE: nat := 17
  const FIRMWARE_ID_SDMA1_JT: nat := 18
  const FIRMWARE_ID_CP_CE: nat := 19
  const FIRMWARE_ID_CP_PFP: nat := 20
  const FIRMWARE_ID_CP_ME: nat := 21
  const FIRMWARE_ID_CP_MEC: nat := 22
  const FIRMWARE_ID_CP_MES: nat := 23
  const FIRMWARE_ID_MAX: nat := 30

  /** An id strictly between FIRMWARE_ID_INVALID and FIRMWARE_ID_MAX. */
  predicate InTable(id: nat) {
    FIRMWARE_ID_INVALID < id < FIRMWARE_ID_MAX
  }

  /** The command-processor images whose slot must start on a page. */
  predicate IsCpId(id: nat) {
    FIRMWARE_ID_CP_CE <= id <= FIRMWARE_ID_CP_MES
  }

  /** One RLC_TABLE_OF_CONTENT entry; offset and size in dwords. */
  datatype TocEntry = TocEntry(id: nat, offset: nat, size: nat)

  /** One rlc_autoload_info entry; offset and size in bytes. */
  datatype InfoEntry = InfoEntry(id: nat, offset: nat, size: nat)

  /** The zero-initialised static table. */
  function EmptyInfo(): (info: seq<InfoEntry>)
    ensures |info| == FIRMWARE_ID_MAX
  {
    seq(FIRMWARE_ID_MAX, _ => InfoEntry(0, 0, 0))
  }

  // ---------------------------------------------------------------------
  // gfx_v10_0_parse_rlc_toc
  // ---------------------------------------------------------------------

  /**
   * How many leading entries the parse loop accepts: it stops at the first
   * id outside (INVALID, MAX), or at the end of the copied table.
   */
  function Accepted(toc: seq<TocEntry>): (n: nat)
    ensures n <= |toc|
    ensures forall k :: 0 <= k < n ==> InTable(toc[k].id)
    ensures n < |toc| ==> !InTable(toc[n].id)
  {
    if |toc| == 0 || !InTable(toc[0].id) then 0 else 1 + Accepted(toc[1..])
  }

  /** An accepted entry as the loop leaves it in the TOC buffer. */
  function Rewrite(e: TocEntry): TocEntry {
    if IsCpId(e.id) then e.(offset := AlignPage(e.offset * 4)) else e
  }

  /** The TOC buffer once the first n entries have been rewritten. */
  function RewrittenUpTo(toc: seq<TocEntry>, n: nat): (r: seq<TocEntry>)
    requires n <= |toc|
    ensures |r| == |toc|
  {
    seq(|toc|, k requires 0 <= k < |toc| => if k < n then Rewrite(toc[k]) else toc[k])
  }

  /** What an accepted entry stores in rlc_autoload_info. */
  function Recorded(e: TocEntry): InfoEntry {
    var r := Rewrite(e);
    InfoEntry(r.id, r.offset * 4, r.size * 4)
  }

  /** rlc_autoload_info after the loop has processed the first n entries. */
  function ParsedInfo(info: seq<InfoEntry>, toc: seq<TocEntry>, n: nat): (r: seq<InfoEntry>)
    requires |info| == FIRMWARE_ID_MAX && n <= Accepted(toc)
    ensures |r| == FIRMWARE_ID_MAX
  {
    if n == 0 then info else ParsedInfo(info, toc, n - 1)[toc[n - 1].id := Recorded(toc[n - 1])]
  }

  /** The index of the last of the first n entries that carries id, if any. */
  function LastWithId(toc: seq<TocEntry>, n: nat, id: nat): (o: Option<nat>)
    requires n <= |toc|
    ensures o.Some? ==> o.value < n && toc[o.value].id == id &&
                        forall j :: o.value < j < n ==> toc[j].id != id
    ensures o.None? ==> forall j :: 0 <= j < n ==> toc[j].id != id
  {
    if n == 0 then None
    else if toc[n - 1].id == id then Some(n - 1)
    else LastWithId(toc, n - 1, id)
  }

  /**
   * After the parse, the table slot of an id holds what the last accepted
   * entry with that id says: size 4 * size, offset 4 * ALIGN(4 * offset,
   * PAGE_SIZE) for CP_CE..CP_MES and 4 * offset otherwise. A slot whose id
   * no accepted entry carries keeps its old contents.
   */
  lemma {:induction false} ParsedInfoAt(info: seq<InfoEntry>, toc: seq<TocEntry>, n: nat, id: nat)
    requires |info| == FIRMWARE_ID_MAX && n <= Accepted(toc) && id < FIRMWARE_ID_MAX
    ensures LastWithId(toc, n, id).None? ==> ParsedInfo(info, toc, n)[id] == info[id]
    ensures LastWithId(toc, n, id).Some? ==>
              var e := toc[LastWithId(toc, n, id).value];
              ParsedInfo(info, toc, n)[id] ==
                InfoEntry(id, if IsCpId(id) then 4 * AlignPage(4 * e.offset) else 4 * e.offset, 4 * e.size)
  {
    if n > 0 {
      ParsedInfoAt(info, toc, n - 1, id);
    }
  }

  /** Parsing the same TOC again over its own result changes nothing. */
  lemma ParseIdempotent(info: seq<InfoEntry>, toc: seq<TocEntry>)
    requires |info| == FIRMWARE_ID_MAX
    ensures var once := ParsedInfo(info, toc, Accepted(toc));
            ParsedInfo(once, toc, Accepted(toc)) == once
  {
    var n := Accepted(toc);
    var once := ParsedInfo(info, toc, n);
    forall id | 0 <= id < FIRMWARE_ID_MAX
      ensures ParsedInfo(once, toc, n)[id] == once[id]
    {
      ParsedInfoAt(info, toc, n, id);
      ParsedInfoAt(once, toc, n, id);
    }
  }

  // ---------------------------------------------------------------------
  // gfx_v10_0_calc_toc_total_size
  // ---------------------------------------------------------------------

  /** The sum of the recorded sizes of ids RLC_G_UCODE .. hi - 1. */
  function SizeSum(info: seq<InfoEntry>, hi: nat): nat
    requires 1 <= hi <= |info|
  {
    if hi == 1 then 0 else SizeSum(info, hi - 1) + info[hi - 1].size
  }

  lemma {:induction false} SizeSumCovers(info: seq<InfoEntry>, hi: nat)
    requires 1 <= hi <= |info|
    ensures forall id :: 1 <= id < hi ==> info[id].size <= SizeSum(info, hi)
  {
    if hi > 1 {
      SizeSumCovers(info, hi - 1);
    }
  }

  /**
   * The staging size as gfx_v10_0_calc_toc_total_size computes it: the sum
   * of all recorded sizes, or the end of the last table slot when the sum
   * falls short of that slot's offset.
   */
  function TocTotalSize(info: seq<InfoEntry>): nat
    requires |info| == FIRMWARE_ID_MAX
  {
    var sum := SizeSum(info, FIRMWARE_ID_MAX);
    var last := info[FIRMWARE_ID_MAX - 1];
    if sum < last.offset then last.offset + last.size else sum
  }

  /**
   * The total is at least every recorded size and at least their sum, and it
   * is exactly the end of the last slot when the sum is below that slot's
   * offset.
   */
  lemma TocTotalSizeBounds(info: seq<InfoEntry>)
    requires |info| == FIRMWARE_ID_MAX
    ensures TocTotalSize(info) >= SizeSum(info, FIRMWARE_ID_MAX)
    ensures forall id :: 1 <= id < FIRMWARE_ID_MAX ==> info[id].size <= TocTotalSize(info)
    ensures SizeSum(info, FIRMWARE_ID_MAX) < info[FIRMWARE_ID_MAX - 1].offset ==>
              TocTotalSize(info) == info[FIRMWARE_ID_MAX - 1].offset + info[FIRMWARE_ID_MAX - 1].size
  {
    SizeSumCovers(info, FIRMWARE_ID_MAX);
  }

  /** The highest end offset among ids RLC_G_UCODE .. hi - 1. */
  function MaxEnd(info: seq<InfoEntry>, hi: nat): (m: nat)
    requires 1 <= hi <= |info|
    ensures forall id :: 1 <= id < hi ==> info[id].offset + info[id].size <= m
    ensures m == 0 || exists id :: 1 <= id < hi && m == info[id].offset + info[id].size
  {
    if hi == 1 then 0
    else
      var m := MaxEnd(info, hi - 1);
      var e := info[hi - 1].offset + info[hi - 1].size;
      if e > m then e else m
  }

  /**
   * The corrected staging size, the one BufferInitCovering allocates: the
   * source's total, raised to the end of the furthest slot when some slot
   * would stick out.
   */
  function StagingSize(info: seq<InfoEntry>): (total: nat)
    requires |info| == FIRMWARE_ID_MAX
    ensures total >= TocTotalSize(info)
    ensures forall id :: 1 <= id < FIRMWARE_ID_MAX ==> info[id].offset + info[id].size <= total
    ensures MaxEnd(info, FIRMWARE_ID_MAX) <= TocTotalSize(info) ==> total == TocTotalSize(info)
  {
    var t := TocTotalSize(info);
    var m := MaxEnd(info, FIRMWARE_ID_MAX);
    if m > t then m else t
  }

  /** A TOC with RLC_G at byte 0, 4 KiB, and CP_PFP at dword 1024, 8 KiB. */
  function UndersizedToc(): seq<TocEntry> {
    [TocEntry(FIRMWARE_ID_RLC_G_UCODE, 0, 1024), TocEntry(FIRMWARE_ID_CP_PFP, 1024, 2048),
     TocEntry(FIRMWARE_ID_INVALID, 0, 0)]
  }

  lemma {:induction false} SizeSumTwo(info: seq<InfoEntry>, hi: nat)
    requires |info| == FIRMWARE_ID_MAX && 1 <= hi <= FIRMWARE_ID_MAX
    requires info[FIRMWARE_ID_RLC_G_UCODE].size == 4096 && info[FIRMWARE_ID_CP_PFP].size == 8192
    requires forall id :: 1 <= id < FIRMWARE_ID_MAX && id != FIRMWARE_ID_RLC_G_UCODE && id != FIRMWARE_ID_CP_PFP ==>
               info[id].size == 0
    ensures SizeSum(info, hi) == (if hi > 1 then 4096 else 0) + (if hi > 20 then 8192 else 0)
  {
    if hi > 1 {
      SizeSumTwo(info, hi - 1);
    }
  }

  /**
   * With that TOC parsed into a zeroed table, the source's total is 12288
   * bytes while the CP_PFP slot, whose dword offset is multiplied by four
   * twice, ends at byte 24576: the staging buffer it sizes is too small for
   * the PFP copy.
   */
  lemma TocTotalSizeMissesPfpSlot()
    ensures Accepted(UndersizedToc()) == 2
    ensures var info := ParsedInfo(EmptyInfo(), UndersizedToc(), 2);
            TocTotalSize(info) == 12288 &&
            info[FIRMWARE_ID_CP_PFP].offset + info[FIRMWARE_ID_CP_PFP].size == 24576 &&
            StagingSize(info) == 24576 &&
            !Fits(info, TocTotalSize(info), Copy(FIRMWARE_ID_CP_PFP, Zeros(8192), 0)) &&
            Fits(info, StagingSize(info), Copy(FIRMWARE_ID_CP_PFP, Zeros(8192), 0))
  {
    var toc := UndersizedToc();
    assert Accepted(toc[2..]) == 0;
    assert Accepted(toc[1..]) == 1 by { assert toc[1..][1..] == toc[2..]; }
    var info := ParsedInfo(EmptyInfo(), toc, 2);
    assert AlignPage(4096) == 4096;
    assert info == EmptyInfo()[1 := InfoEntry(1, 0, 4096)][20 := InfoEntry(20, 16384, 8192)];
    SizeSumTwo(info, FIRMWARE_ID_MAX);
    assert MaxEnd(info, FIRMWARE_ID_MAX) == 24576;
  }

  // ---------------------------------------------------------------------
  // gfx_v10_0_rlc_backdoor_autoload_copy_ucode
  // ---------------------------------------------------------------------

  /** The number of image bytes copied: fw_size, 0 meaning the slot size, clamped to the slot. */
  function EffectiveSize(fwSize: nat, slotSize: nat): (n: nat)
    ensures n <= slotSize
    ensures fwSize == 0 || fwSize >= slotSize ==> n == slotSize
    ensures 0 < fwSize < slotSize ==> n == fwSize
  {
    var f := if fwSize == 0 then slotSize else fwSize;
    if f > slotSize then slotSize else f
  }

  function Zeros(n: nat): (z: seq<byte>)
    ensures |z| == n && forall k :: 0 <= k < n ==> z[k] == 0
  {
    seq(n, _ => 0)
  }

  /** The buffer after memcpy of the image into the slot and memset of the slot's remainder. */
  function Placed(s: seq<byte>, off: nat, slotSize: nat, data: seq<byte>, fwSize: nat): seq<byte>
    requires off + slotSize <= |s| && EffectiveSize(fwSize, slotSize) <= |data|
  {
    var n := EffectiveSize(fwSize, slotSize);
    s[..off] + data[..n] + Zeros(slotSize - n) + s[off + slotSize..]
  }

  /**
   * Copying an image writes exactly the bytes of its slot: the first
   * EffectiveSize bytes from the image, the rest of the slot zero, every
   * other byte as before.
   */
  lemma PlacedBytes(s: seq<byte>, off: nat, slotSize: nat, data: seq<byte>, fwSize: nat)
    requires off + slotSize <= |s| && EffectiveSize(fwSize, slotSize) <= |data|
    ensures var r := Placed(s, off, slotSize, data, fwSize);
            var n := EffectiveSize(fwSize, slotSize);
            |r| == |s| &&
            (forall k :: 0 <= k < |s| && !(off <= k < off + slotSize) ==> r[k] == s[k]) &&
            (forall k :: off <= k < off + n ==> r[k] == data[k - off]) &&
            (forall k :: off + n <= k < off + slotSize ==> r[k] == 0)
  {
    var n := EffectiveSize(fwSize, slotSize);
    var r := Placed(s, off, slotSize, data, fwSize);
    var a, b, c := s[..off], data[..n], Zeros(slotSize - n);
    assert r == a + b + c + s[off + slotSize..];
    forall k | 0 <= k < |s|
      ensures k < off ==> r[k] == s[k]
      ensures off <= k < off + n ==> r[k] == data[k - off]
      ensures off + n <= k < off + slotSize ==> r[k] == 0
      ensures off + slotSize <= k ==> r[k] == s[k]
    {
      if k < off {
        assert r[k] == a[k];
      } else if k < off + n {
        assert r[k] == b[k - off];
      } else if k < off + slotSize {
        assert r[k] == c[k - off - n];
      } else {
        assert r[k] == s[off + slotSize..][k - off - slotSize];
      }
    }
  }

  /** One call of copy_ucode: the id, the image bytes and the fw_size argument. */
  datatype Copy = Copy(id: nat, data: seq<byte>, size: nat)

  /** A copy the buffer can take: its slot lies inside the buffer and the image is long enough. */
  predicate Fits(info: seq<InfoEntry>, bufLen: nat, c: Copy)
    requires |info| == FIRMWARE_ID_MAX
  {
    InTable(c.id) ==>
      info[c.id].offset + info[c.id].size <= bufLen &&
      EffectiveSize(c.size, info[c.id].size) <= |c.data|
  }

  /**
   * A buffer of StagingSize bytes takes every copy whose image is long
   * enough for its clamped length, whatever slot it names.
   */
  lemma StagingSizeFits(info: seq<InfoEntry>, c: Copy)
    requires |info| == FIRMWARE_ID_MAX
    requires InTable(c.id) ==> EffectiveSize(c.size, info[c.id].size) <= |c.data|
    ensures Fits(info, StagingSize(info), c)
  {
  }

  /** The buffer after one copy; an id outside the table leaves it alone. */
  function CopyEffect(s: seq<byte>, info: seq<InfoEntry>, c: Copy): (r: seq<byte>)
    requires |info| == FIRMWARE_ID_MAX && Fits(info, |s|, c)
    ensures |r| == |s|
  {
    if InTable(c.id) then Placed(s, info[c.id].offset, info[c.id].size, c.data, c.size) else s
  }

  /** Every copy of a run fits the buffer. */
  predicate AllFit(info: seq<InfoEntry>, bufLen: nat, cs: seq<Copy>)
    requires |info| == FIRMWARE_ID_MAX
  {
    forall i :: 0 <= i < |cs| ==> Fits(info, bufLen, cs[i])
  }

  /** The buffer after a run of copies, in order. */
  function ApplyCopies(s: seq<byte>, info: seq<InfoEntry>, cs: seq<Copy>): (r: seq<byte>)
    requires |info| == FIRMWARE_ID_MAX && AllFit(info, |s|, cs)
    ensures |r| == |s|
    decreases |cs|
  {
    if cs == [] then s else ApplyCopies(CopyEffect(s, info, cs[0]), info, cs[1..])
  }

  /** Copy k of a run, made on the buffer the copies before it left. */
  lemma ApplyCopiesDrop(s: seq<byte>, info: seq<InfoEntry>, cs: seq<Copy>, k: nat)
    requires |info| == FIRMWARE_ID_MAX && AllFit(info, |s|, cs) && k < |cs|
    ensures Fits(info, |s|, cs[k]) && AllFit(info, |s|, cs[k..]) && AllFit(info, |s|, cs[k + 1..])
    ensures ApplyCopies(s, info, cs[k..]) == ApplyCopies(CopyEffect(s, info, cs[k]), info, cs[k + 1..])
  {
    assert cs[k..][0] == cs[k] && cs[k..][1..] == cs[k + 1..];
  }

  lemma ApplyOne(s: seq<byte>, info: seq<InfoEntry>, c: Copy)
    requires |info| == FIRMWARE_ID_MAX && Fits(info, |s|, c)
    ensures AllFit(info, |s|, [c])
    ensures ApplyCopies(s, info, [c]) == CopyEffect(s, info, c)
  {
    assert [c][1..] == [];
  }

  lemma ApplyPair(s: seq<byte>, info: seq<InfoEntry>, a: Copy, b: Copy)
    requires |info| == FIRMWARE_ID_MAX && AllFit(info, |s|, [a, b])
    ensures Fits(info, |s|, a) && Fits(info, |s|, b)
    ensures ApplyCopies(s, info, [a, b]) == CopyEffect(CopyEffect(s, info, a), info, b)
  {
    assert [a, b][0] == a && [a, b][1] == b;
    assert [a, b][1..] == [b];
    ApplyOne(CopyEffect(s, info, a), info, b);
  }

  /** Two runs one after the other are the run of both. */
  lemma {:induction false} ApplyCopiesAppend(s: seq<byte>, info: seq<InfoEntry>, a: seq<Copy>, b: seq<Copy>)
    requires |info| == FIRMWARE_ID_MAX && AllFit(info, |s|, a + b)
    ensures AllFit(info, |s|, a) && AllFit(info, |s|, b)
    ensures ApplyCopies(s, info, a + b) == ApplyCopies(ApplyCopies(s, info, a), info, b)
    decreases |a|
  {
    assert forall i :: 0 <= i < |a| ==> a[i] == (a + b)[i];
    assert forall i :: 0 <= i < |b| ==> b[i] == (a + b)[|a| + i];
    if a == [] {
      assert a + b == b;
    } else {
      assert (a + b)[0] == a[0] && (a + b)[1..] == a[1..] + b;
      ApplyCopiesAppend(CopyEffect(s, info, a[0]), info, a[1..], b);
    }
  }

  /** Whether byte k lies in the slot of copy c (an id outside the table has none). */
  predicate InSlot(info: seq<InfoEntry>, c: Copy, k: nat)
    requires |info| == FIRMWARE_ID_MAX
  {
    InTable(c.id) && info[c.id].offset <= k < info[c.id].offset + info[c.id].size
  }

  /** A byte in no copy's slot keeps its value through a run of copies. */
  lemma {:induction false} ApplyCopiesFrame(s: seq<byte>, info: seq<InfoEntry>, cs: seq<Copy>, k: nat)
    requires |info| == FIRMWARE_ID_MAX && AllFit(info, |s|, cs)
    requires k < |s| && forall j :: 0 <= j < |cs| ==> !InSlot(info, cs[j], k)
    ensures ApplyCopies(s, info, cs)[k] == s[k]
    decreases |cs|
  {
    if cs != [] {
      var c := cs[0];
      var s1 := CopyEffect(s, info, c);
      if InTable(c.id) {
        PlacedBytes(s, info[c.id].offset, info[c.id].size, c.data, c.size);
      }
      assert forall j :: 0 <= j < |cs[1..]| ==> cs[1..][j] == cs[j + 1];
      ApplyCopiesFrame(s1, info, cs[1..], k);
    }
  }

  /**
   * A byte of copy j's slot that no later copy's slot covers ends up as that
   * copy wrote it: image byte or zero padding.
   */
  lemma {:induction false} ApplyCopiesSlot(s: seq<byte>, info: seq<InfoEntry>, cs: seq<Copy>, j: nat, k: nat)
    requires |info| == FIRMWARE_ID_MAX && AllFit(info, |s|, cs)
    requires j < |cs| && InSlot(info, cs[j], k)
    requires forall i :: j < i < |cs| ==> !InSlot(info, cs[i], k)
    ensures var c := cs[j];
            var off := info[c.id].offset;
            ApplyCopies(s, info, cs)[k] ==
              if k - off < EffectiveSize(c.size, info[c.id].size) then c.data[k - off] else 0
    decreases |cs|
  {
    var c := cs[0];
    var s1 := CopyEffect(s, info, c);
    assert forall i :: 0 <= i < |cs[1..]| ==> cs[1..][i] == cs[i + 1];
    if InTable(c.id) {
      PlacedBytes(s, info[c.id].offset, info[c.id].size, c.data, c.size);
    }
    if j == 0 {
      ApplyCopiesFrame(s1, info, cs[1..], k);
    } else {
      ApplyCopiesSlot(s1, info, cs[1..], j - 1, k);
    }
  }

  // ---------------------------------------------------------------------
  // Copy plan of gfx_v10_0_rlc_backdoor_autoload_enable
  // ---------------------------------------------------------------------

  /** A firmware image: the bytes from ucode_array_offset_bytes on, and the header's ucode_size_bytes. */
  datatype Ucode = Ucode(bytes: seq<byte>, sizeBytes: u32)

  /** One SDMA instance's firmware; the jump table's offset and size count in dwords. */
  datatype SdmaFw = SdmaFw(image: Ucode, jtOffset: nat, jtSize: u32)

  /** The gfx firmware images; jtSize is the MEC header's jt_size in dwords. */
  datatype GfxFw = GfxFw(pfp: Ucode, ce: Ucode, me: Ucode, rlc: Ucode, mec: Ucode, mecJtSize: u32)

  /** The bytes from dword off on: (uint32_t *)fw_data + off. */
  function FromDword(bytes: seq<byte>, off: nat): (r: seq<byte>)
    ensures 4 * off <= |bytes| ==> |r| == |bytes| - 4 * off
  {
    if 4 * off <= |bytes| then bytes[4 * off..] else []
  }

  /** The copies gfx_v10_0_rlc_backdoor_autoload_copy_sdma_ucode makes for instance i. */
  function SdmaInstanceCopies(i: nat, f: SdmaFw): seq<Copy> {
    var jt := FromDword(f.image.bytes, f.jtOffset);
    if i == 0 then
      [Copy(FIRMWARE_ID_SDMA0_UCODE, f.image.bytes, f.image.sizeBytes),
       Copy(FIRMWARE_ID_SDMA0_JT, jt, Lo(f.jtSize * 4))]
    else if i == 1 then
      [Copy(FIRMWARE_ID_SDMA1_UCODE, f.image.bytes, f.image.sizeBytes),
       Copy(FIRMWARE_ID_SDMA1_JT, jt, Lo(f.jtSize * 4))]
    else []
  }

  /** The SDMA copies for instances 0 .. n - 1. */
  function SdmaCopies(sdma: seq<SdmaFw>, n: nat): seq<Copy>
    requires n <= |sdma|
  {
    if n == 0 then [] else SdmaCopies(sdma, n - 1) + SdmaInstanceCopies(n - 1, sdma[n - 1])
  }

  /** The copies of gfx_v10_0_rlc_backdoor_autoload_copy_gfx_ucode; MEC drops its jump table. */
  function GfxCopies(g: GfxFw): seq<Copy> {
    [Copy(FIRMWARE_ID_CP_PFP, g.pfp.bytes, g.pfp.sizeBytes),
     Copy(FIRMWARE_ID_CP_CE, g.ce.bytes, g.ce.sizeBytes),
     Copy(FIRMWARE_ID_CP_ME, g.me.bytes, g.me.sizeBytes),
     Copy(FIRMWARE_ID_RLC_G_UCODE, g.rlc.bytes, g.rlc.sizeBytes),
     Copy(FIRMWARE_ID_CP_MEC, g.mec.bytes, Sub32(g.mec.sizeBytes, Lo(g.mecJtSize * 4)))]
  }

  /** The copy of gfx_v10_0_rlc_backdoor_autoload_copy_toc_ucode: the whole TOC slot. */
  function TocCopy(tocBytes: seq<byte>, info: seq<InfoEntry>): Copy
    requires |info| == FIRMWARE_ID_MAX
  {
    Copy(FIRMWARE_ID_RLC_TOC, tocBytes, info[FIRMWARE_ID_RLC_TOC].size)
  }

  /** Every copy autoload_enable makes, in order: the TOC, the SDMA images, the gfx images. */
  function AutoloadCopies(tocBytes: seq<byte>, tocSize: nat, sdma: seq<SdmaFw>, g: GfxFw): seq<Copy> {
    [Copy(FIRMWARE_ID_RLC_TOC, tocBytes, tocSize)] + SdmaCopies(sdma, |sdma|) + GfxCopies(g)
  }

  function Ids(cs: seq<Copy>): (ids: seq<nat>)
    ensures |ids| == |cs| && forall k :: 0 <= k < |cs| ==> ids[k] == cs[k].id
  {
    seq(|cs|, k requires 0 <= k < |cs| => cs[k].id)
  }

  lemma {:induction false} SdmaCopiesIds(sdma: seq<SdmaFw>, n: nat)
    requires n <= |sdma|
    ensures Ids(SdmaCopies(sdma, n)) ==
              if n == 0 then []
              else if n == 1 then [FIRMWARE_ID_SDMA0_UCODE, FIRMWARE_ID_SDMA0_JT]
              else [FIRMWARE_ID_SDMA0_UCODE, FIRMWARE_ID_SDMA0_JT, FIRMWARE_ID_SDMA1_UCODE, FIRMWARE_ID_SDMA1_JT]
  {
    if n > 0 {
      SdmaCopiesIds(sdma, n - 1);
      if n > 2 {
        assert SdmaCopies(sdma, n) == SdmaCopies(sdma, n - 1);
      }
    }
  }

  /**
   * The copy order: the TOC first, then SDMA0 and its jump table and SDMA1
   * and its jump table for as many of the first two instances as exist (any
   * further instance copies nothing), then PFP, CE, ME, RLC_G and MEC.
   */
  lemma AutoloadOrder(tocBytes: seq<byte>, tocSize: nat, sdma: seq<SdmaFw>, g: GfxFw)
    ensures Ids(AutoloadCopies(tocBytes, tocSize, sdma, g)) ==
              [FIRMWARE_ID_RLC_TOC] +
              (if |sdma| == 0 then []
               else if |sdma| == 1 then [FIRMWARE_ID_SDMA0_UCODE, FIRMWARE_ID_SDMA0_JT]
               else [FIRMWARE_ID_SDMA0_UCODE, FIRMWARE_ID_SDMA0_JT, FIRMWARE_ID_SDMA1_UCODE, FIRMWARE_ID_SDMA1_JT]) +
              [FIRMWARE_ID_CP_PFP, FIRMWARE_ID_CP_CE, FIRMWARE_ID_CP_ME, FIRMWARE_ID_RLC_G_UCODE, FIRMWARE_ID_CP_MEC]
  {
    SdmaCopiesIds(sdma, |sdma|);
    var cs := AutoloadCopies(tocBytes, tocSize, sdma, g);
    var sd := SdmaCopies(sdma, |sdma|);
    assert cs == [cs[0]] + sd + GfxCopies(g);
  }

  /** The copies for the first i instances begin the copies for the first n. */
  lemma {:induction false} SdmaCopiesPrefix(sdma: seq<SdmaFw>, i: nat, n: nat)
    requires i <= n <= |sdma|
    ensures |SdmaCopies(sdma, i)| <= |SdmaCopies(sdma, n)|
    ensures SdmaCopies(sdma, n)[..|SdmaCopies(sdma, i)|] == SdmaCopies(sdma, i)
  {
    if i < n {
      SdmaCopiesPrefix(sdma, i, n - 1);
      var a, b := SdmaCopies(sdma, n - 1), SdmaInstanceCopies(n - 1, sdma[n - 1]);
      assert SdmaCopies(sdma, n) == a + b;
      assert (a + b)[..|SdmaCopies(sdma, i)|] == a[..|SdmaCopies(sdma, i)|];
    }
  }

  /**
   * Every prefix of the SDMA copies fits when all of them do, and the copies
   * of n instances are those of n - 1 followed by instance n - 1's.
   */
  lemma SdmaStep(s: seq<byte>, info: seq<InfoEntry>, sdma: seq<SdmaFw>, n: nat)
    requires |info| == FIRMWARE_ID_MAX && n <= |sdma| && AllFit(info, |s|, SdmaCopies(sdma, |sdma|))
    ensures AllFit(info, |s|, SdmaCopies(sdma, n))
    ensures n > 0 ==> AllFit(info, |s|, SdmaCopies(sdma, n - 1)) &&
                      AllFit(info, |s|, SdmaInstanceCopies(n - 1, sdma[n - 1])) &&
                      ApplyCopies(s, info, SdmaCopies(sdma, n)) ==
                        ApplyCopies(ApplyCopies(s, info, SdmaCopies(sdma, n - 1)), info,
                                    SdmaInstanceCopies(n - 1, sdma[n - 1]))
  {
    var all := SdmaCopies(sdma, |sdma|);
    SdmaCopiesPrefix(sdma, n, |sdma|);
    assert forall i :: 0 <= i < |SdmaCopies(sdma, n)| ==> SdmaCopies(sdma, n)[i] == all[i];
    if n > 0 {
      ApplyCopiesAppend(s, info, SdmaCopies(sdma, n - 1), SdmaInstanceCopies(n - 1, sdma[n - 1]));
    }
  }

  /** The three bootloader register writes: the RLC_G image's address, high half first, then its size. */
  function BootloadWrites(autoloadGpuAddr: u64, rlcG: InfoEntry): seq<RegWrite> {
    var gpuAddr := Add64(autoloadGpuAddr, Lo(rlcG.offset));
    [RegWrite(RlcHypBootloadAddrHi, Hi(gpuAddr)),
     RegWrite(RlcHypBootloadAddrLo, Lo(gpuAddr)),
     RegWrite(RlcHypBootloadSize, Lo(rlcG.size))]
  }

  /** The two address registers put back together give the staging address of the RLC_G slot. */
  lemma BootloadAddress(autoloadGpuAddr: u64, rlcG: InfoEntry)
    requires rlcG.offset < TWO32 && autoloadGpuAddr + rlcG.offset < TWO64
    ensures var w := BootloadWrites(autoloadGpuAddr, rlcG);
            Join(w[1].value, w[0].value) == autoloadGpuAddr + rlcG.offset
  {
    JoinLoHi(autoloadGpuAddr + rlcG.offset);
  }

  /** The verdict of autoload_enable on the RLC_HYP_RESET_VECTOR and RLC_CNTL bits it reads. */
  function EnableStatus(coldBootExit: bool, vddgfxExit: bool, rlcEnableF32: bool): (st: Status)
    ensures st == Ok <==> (coldBootExit || vddgfxExit) && !rlcEnableF32
    ensures st != Ok ==> st == Err(EINVAL)
  {
    if !(coldBootExit || vddgfxExit) then Err(EINVAL)
    else if rlcEnableF32 then Err(EINVAL)
    else Ok
  }

  // ---------------------------------------------------------------------
  // Firmware-size accounting of gfx_v10_0_init_microcode
  // ---------------------------------------------------------------------

  datatype UcodeId =
    | CpPfp | CpMe | CpCe | RlcG
    | RlcRestoreListCntl | RlcRestoreListGpmMem | RlcRestoreListSrmMem
    | CpMec1 | CpMec1Jt | CpMec2 | CpMec2Jt

  /** A MEC image: ucode_size_bytes and jt_size (dwords). */
  datatype MecFw = MecFw(sizeBytes: u32, jtSize: u32)

  /** The header sizes init_microcode reads. */
  datatype Microcode = Microcode(
    pfp: u32, me: u32, ce: u32, rlc: u32,
    rlcV21: bool, cntl: u32, gpm: u32, srm: u32,
    mec: MecFw, mec2: Option<MecFw>)

  /** The MEC image without its jump table, and the jump table, in bytes (32-bit arithmetic). */
  function MecEntries(m: MecFw, image: UcodeId, jt: UcodeId): seq<(UcodeId, u32)> {
    [(image, Sub32(m.sizeBytes, Lo(m.jtSize * 4))), (jt, Lo(m.jtSize * 4))]
  }

  /**
   * The ucodes registered with PSP loading, in order, with the byte count
   * whose page-aligned value each adds to adev->firmware.fw_size.
   */
  function PspUcodes(m: Microcode): (us: seq<(UcodeId, u32)>)
    ensures (exists k :: 0 <= k < |us| && us[k].0 == RlcRestoreListCntl) <==>
              m.rlcV21 && m.cntl != 0 && m.gpm != 0 && m.srm != 0
    ensures (exists k :: 0 <= k < |us| && us[k].0 == CpMec2) <==> m.mec2.Some?
  {
    var lists :=
      if m.rlcV21 && m.cntl != 0 && m.gpm != 0 && m.srm != 0 then
        [(RlcRestoreListCntl, m.cntl), (RlcRestoreListGpmMem, m.gpm), (RlcRestoreListSrmMem, m.srm)]
      else [];
    var mec2 := if m.mec2.Some? then MecEntries(m.mec2.value, CpMec2, CpMec2Jt) else [];
    var us := [(CpPfp, m.pfp), (CpMe, m.me), (CpCe, m.ce), (RlcG, m.rlc)] + lists
              + MecEntries(m.mec, CpMec1, CpMec1Jt) + mec2;
    assert lists != [] ==> us[4].0 == RlcRestoreListCntl;
    assert m.mec2.Some? ==> us[|us| - 2].0 == CpMec2;
    us
  }

  /**
   * ALIGN(x, PAGE_SIZE) on a u32 x, computed in u32 as the macro does for a
   * u32 argument: the exact round-up, except that within a page of 2^32 it
   * wraps to 0.
   */
  function Align32(x: u32): (r: u32)
    ensures r % PAGE_SIZE == 0
    ensures x <= TWO32 - PAGE_SIZE ==> r == AlignPage(x)
    ensures x > TWO32 - PAGE_SIZE ==> r == 0
  {
    Lo(AlignPage(x))
  }

  /** Adding two page multiples in u32 gives a page multiple. */
  lemma AddPages32(a: u32, b: u32)
    requires a % PAGE_SIZE == 0 && b % PAGE_SIZE == 0
    ensures ((a + b) % TWO32) % PAGE_SIZE == 0
  {
    if a + b >= TWO32 {
      assert (a + b) % TWO32 == a + b - TWO32;
    }
  }

  /** fw_size += ALIGN(size, PAGE_SIZE) for each ucode in turn, all in u32. */
  function AlignedSum32(us: seq<(UcodeId, u32)>): (r: u32)
    ensures r % PAGE_SIZE == 0
  {
    if us == [] then 0
    else
      var a, b := AlignedSum32(us[..|us| - 1]), Align32(us[|us| - 1].1);
      AddPages32(a, b);
      (a + b) % TWO32
  }

  /** The same sum with unbounded naturals and no wrap anywhere. */
  function AlignedSum(us: seq<(UcodeId, u32)>): nat {
    if us == [] then 0 else AlignedSum(us[..|us| - 1]) + AlignPage(us[|us| - 1].1)
  }

  function RawSum(us: seq<(UcodeId, u32)>): nat {
    if us == [] then 0 else RawSum(us[..|us| - 1]) + us[|us| - 1].1
  }

  /** No size wraps when rounded up, and the rounded total fits in 32 bits. */
  predicate NoWrap(us: seq<(UcodeId, u32)>) {
    (forall k :: 0 <= k < |us| ==> us[k].1 <= TWO32 - PAGE_SIZE) && AlignedSum(us) < TWO32
  }

  /** How much init_microcode adds to fw_size, modulo 2^32: nothing unless the firmware is loaded by PSP. */
  function FwSizeIncrement(pspLoad: bool, m: Microcode): u32 {
    if pspLoad then AlignedSum32(PspUcodes(m)) else 0
  }

  lemma {:induction false} AlignedSumBounds(us: seq<(UcodeId, u32)>)
    ensures AlignedSum(us) % PAGE_SIZE == 0
    ensures RawSum(us) <= AlignedSum(us) < RawSum(us) + |us| * PAGE_SIZE || us == []
  {
    if us != [] {
      AlignedSumBounds(us[..|us| - 1]);
    }
  }

  /** Without wrap-around the u32 accumulation is the exact sum. */
  lemma {:induction false} AlignedSum32Exact(us: seq<(UcodeId, u32)>)
    requires NoWrap(us)
    ensures AlignedSum32(us) == AlignedSum(us)
  {
    if us != [] {
      var init := us[..|us| - 1];
      assert forall k :: 0 <= k < |init| ==> init[k] == us[k];
      AlignedSum32Exact(init);
    }
  }

  /**
   * The increment is always a whole number of pages. When nothing wraps it
   * covers every registered image and wastes less than a page per image.
   */
  lemma FwSizeIncrementPages(pspLoad: bool, m: Microcode)
    ensures FwSizeIncrement(pspLoad, m) % PAGE_SIZE == 0
    ensures pspLoad && NoWrap(PspUcodes(m)) ==>
              RawSum(PspUcodes(m)) <= FwSizeIncrement(pspLoad, m) < RawSum(PspUcodes(m)) + |PspUcodes(m)| * PAGE_SIZE
  {
    if pspLoad && NoWrap(PspUcodes(m)) {
      AlignedSumBounds(PspUcodes(m));
      AlignedSum32Exact(PspUcodes(m));
    }
  }

  /**
   * A MEC header whose jump table is larger than its ucode makes the image
   * size wrap to 2^32 - 4, and ALIGN of that wraps to 0: the image adds
   * nothing to fw_size, while its jump table still adds a page.
   */
  lemma MecUnderflowAddsNothing(m: MecFw)
    requires m.sizeBytes == 0 && m.jtSize == 1
    ensures var es := MecEntries(m, CpMec1, CpMec1Jt);
            es[0].1 == TWO32 - 4 && Align32(es[0].1) == 0 && Align32(es[1].1) == PAGE_SIZE
  {
  }

  // ---------------------------------------------------------------------
  // The driver state
  // ---------------------------------------------------------------------

  class Autoloader {
    /** rlc_autoload_info: a static table whose entries survive from one parse to the next. */
    const info: array<InfoEntry>
    /** adev->gfx.rlc.rlc_toc_buf */
    var tocBuf: array<TocEntry>
    /** adev->gfx.rlc.rlc_autoload_ptr */
    var staging: array<byte>

    ghost predicate Valid()
      reads this
    {
      info.Length == FIRMWARE_ID_MAX
    }

    constructor ()
      ensures Valid() && info[..] == EmptyInfo()
      ensures tocBuf.Length == 0 && staging.Length == 0
    {
      info := new InfoEntry[FIRMWARE_ID_MAX](_ => InfoEntry(0, 0, 0));
      tocBuf := new TocEntry[0];
      staging := new byte[0];
      new;
      assert info[..] == EmptyInfo();
    }

    /**
     * gfx_v10_0_parse_rlc_toc, with the TOC buffer allocation's outcome as
     * `bo` and the PSP's table as `psp`.
     */
    method ParseRlcToc(bo: Status, psp: seq<TocEntry>) returns (st: Status)
      requires Valid()
      modifies this`tocBuf, info
      ensures Valid()
      ensures bo.Err? ==> st == bo && tocBuf == old(tocBuf) && info[..] == old(info[..])
      ensures bo.Ok? ==> st == Ok && fresh(tocBuf) &&
                         tocBuf[..] == RewrittenUpTo(psp, Accepted(psp)) &&
                         info[..] == ParsedInfo(old(info[..]), psp, Accepted(psp))
    {
      if bo.Err? {
        return bo;
      }
      tocBuf := new TocEntry[|psp|](k requires 0 <= k < |psp| => psp[k]);
      assert tocBuf[..] == RewrittenUpTo(psp, 0);
      var i := 0;
      while i < tocBuf.Length && InTable(tocBuf[i].id)
        invariant 0 <= i <= Accepted(psp) && tocBuf.Length == |psp| && fresh(tocBuf)
        invariant tocBuf[..] == RewrittenUpTo(psp, i)
        invariant info[..] == ParsedInfo(old(info[..]), psp, i)
      {
        var e := tocBuf[i];
        if FIRMWARE_ID_CP_CE <= e.id && e.id <= FIRMWARE_ID_CP_MES {
          e := e.(offset := AlignPage(e.offset * 4));
          tocBuf[i] := e;
        }
        info[e.id] := InfoEntry(e.id, e.offset * 4, e.size * 4);
        assert tocBuf[..] == RewrittenUpTo(psp, i + 1);
        i := i + 1;
      }
      return Ok;
    }

    /**
     * gfx_v10_0_calc_toc_total_size as written: parse, then return the sum
     * of the recorded sizes, or the last id's slot end when the sum falls
     * short of that slot's offset; 0 when the parse fails.
     */
    method CalcTocTotalSize(bo: Status, psp: seq<TocEntry>) returns (total: nat)
      requires Valid()
      modifies this`tocBuf, info
      ensures Valid()
      ensures bo.Err? ==> total == 0 && tocBuf == old(tocBuf) && info[..] == old(info[..])
      ensures bo.Ok? ==> fresh(tocBuf) && tocBuf[..] == RewrittenUpTo(psp, Accepted(psp)) &&
                         info[..] == ParsedInfo(old(info[..]), psp, Accepted(psp)) &&
                         total == TocTotalSize(info[..])
    {
      var st := ParseRlcToc(bo, psp);
      if st.Err? {
        return 0;
      }
      var sum := 0;
      for id := FIRMWARE_ID_RLC_G_UCODE to FIRMWARE_ID_MAX
        invariant sum == SizeSum(info[..], id)
      {
        sum := sum + info[id].size;
      }
      total := sum;
      if total < info[FIRMWARE_ID_MAX - 1].offset {
        total := info[FIRMWARE_ID_MAX - 1].offset + info[FIRMWARE_ID_MAX - 1].size;
      }
    }

    /** The furthest slot end in the info table, over ids RLC_G_UCODE .. MAX - 1. */
    method FurthestEnd() returns (end: nat)
      requires Valid()
      ensures end == MaxEnd(info[..], FIRMWARE_ID_MAX)
    {
      end := 0;
      for id := FIRMWARE_ID_RLC_G_UCODE to FIRMWARE_ID_MAX
        invariant end == MaxEnd(info[..], id)
      {
        var e := info[id].offset + info[id].size;
        if e > end {
          end := e;
        }
      }
    }

    /**
     * calc_toc_total_size corrected: the source's total, raised to the
     * furthest slot end so that every slot fits.
     */
    method CalcStagingSize(bo: Status, psp: seq<TocEntry>) returns (total: nat)
      requires Valid()
      modifies this`tocBuf, info
      ensures Valid()
      ensures bo.Err? ==> total == 0 && tocBuf == old(tocBuf) && info[..] == old(info[..])
      ensures bo.Ok? ==> fresh(tocBuf) && tocBuf[..] == RewrittenUpTo(psp, Accepted(psp)) &&
                         info[..] == ParsedInfo(old(info[..]), psp, Accepted(psp)) &&
                         total == StagingSize(info[..])
    {
      total := CalcTocTotalSize(bo, psp);
      if bo.Ok? {
        var end := FurthestEnd();
        if total < end {
          total := end;
        }
      }
    }

    /**
     * gfx_v10_0_rlc_backdoor_autoload_buffer_init as written: size the
     * buffer with calc_toc_total_size, then allocate it (`bo` is the outcome
     * of that allocation). The new buffer's contents are unspecified.
     */
    method BufferInit(tocBo: Status, psp: seq<TocEntry>, bo: Status) returns (st: Status)
      requires Valid()
      modifies this`tocBuf, this`staging, info
      ensures Valid() && st == bo
      ensures tocBo.Ok? ==> info[..] == ParsedInfo(old(info[..]), psp, Accepted(psp))
      ensures tocBo.Err? ==> info[..] == old(info[..])
      ensures bo.Err? ==> staging == old(staging)
      ensures bo.Ok? ==> fresh(staging) &&
                         staging.Length == if tocBo.Ok? then TocTotalSize(info[..]) else 0
    {
      var total := CalcTocTotalSize(tocBo, psp);
      if bo.Err? {
        return bo;
      }
      staging := new byte[total];
      return Ok;
    }

    /** buffer_init corrected: the staging buffer is sized by CalcStagingSize. */
    method BufferInitCovering(tocBo: Status, psp: seq<TocEntry>, bo: Status) returns (st: Status)
      requires Valid()
      modifies this`tocBuf, this`staging, info
      ensures Valid() && st == bo
      ensures tocBo.Ok? ==> info[..] == ParsedInfo(old(info[..]), psp, Accepted(psp))
      ensures tocBo.Err? ==> info[..] == old(info[..])
      ensures bo.Err? ==> staging == old(staging)
      ensures bo.Ok? ==> fresh(staging) &&
                         staging.Length == if tocBo.Ok? then StagingSize(info[..]) else 0
    {
      var total := CalcStagingSize(tocBo, psp);
      if bo.Err? {
        return bo;
      }
      staging := new byte[total];
      return Ok;
    }

    /** gfx_v10_0_rlc_backdoor_autoload_copy_ucode */
    method CopyUcode(id: nat, data: seq<byte>, fwSize: nat)
      requires Valid() && Fits(info[..], staging.Length, Copy(id, data, fwSize))
      modifies staging
      ensures staging[..] == CopyEffect(old(staging[..]), info[..], Copy(id, data, fwSize))
    {
      if id <= FIRMWARE_ID_INVALID || id >= FIRMWARE_ID_MAX {
        return;
      }
      var off := info[id].offset;
      var slotSize := info[id].size;
      var size := fwSize;
      if size == 0 {
        size := slotSize;
      }
      if size > slotSize {
        size := slotSize;
      }
      forall k | off <= k < off + size {
        staging[k] := data[k - off];
      }
      if size < slotSize {
        forall k | off + size <= k < off + slotSize {
          staging[k] := 0;
        }
      }
      PlacedBytes(old(staging[..]), off, slotSize, data, fwSize);
      assert staging[..] == Placed(old(staging[..]), off, slotSize, data, fwSize);
    }
  }

  /** gfx_v10_0_rlc_backdoor_autoload_copy_toc_ucode: the TOC buffer, as bytes, into the TOC slot. */
  method CopyTocUcode(a: Autoloader, tocBytes: seq<byte>)
    requires a.Valid() && Fits(a.info[..], a.staging.Length, TocCopy(tocBytes, a.info[..]))
    modifies a.staging
    ensures a.staging[..] == CopyEffect(old(a.staging[..]), a.info[..], TocCopy(tocBytes, a.info[..]))
  {
    a.CopyUcode(FIRMWARE_ID_RLC_TOC, tocBytes, a.info[FIRMWARE_ID_RLC_TOC].size);
  }

  /** The body of the SDMA copy loop for instance i: image and jump table for instances 0 and 1. */
  method CopySdmaInstance(a: Autoloader, i: nat, f: SdmaFw)
    requires a.Valid() && AllFit(a.info[..], a.staging.Length, SdmaInstanceCopies(i, f))
    modifies a.staging
    ensures a.staging[..] == ApplyCopies(old(a.staging[..]), a.info[..], SdmaInstanceCopies(i, f))
  {
    ghost var cs := SdmaInstanceCopies(i, f);
    if i == 0 || i == 1 {
      ApplyPair(a.staging[..], a.info[..], cs[0], cs[1]);
      assert cs == [cs[0], cs[1]];
    }
    if i == 0 {
      a.CopyUcode(FIRMWARE_ID_SDMA0_UCODE, f.image.bytes, f.image.sizeBytes);
      a.CopyUcode(FIRMWARE_ID_SDMA0_JT, FromDword(f.image.bytes, f.jtOffset), Lo(f.jtSize * 4));
    } else if i == 1 {
      a.CopyUcode(FIRMWARE_ID_SDMA1_UCODE, f.image.bytes, f.image.sizeBytes);
      a.CopyUcode(FIRMWARE_ID_SDMA1_JT, FromDword(f.image.bytes, f.jtOffset), Lo(f.jtSize * 4));
    }
  }

  /** gfx_v10_0_rlc_backdoor_autoload_copy_sdma_ucode */
  method CopySdmaUcode(a: Autoloader, sdma: seq<SdmaFw>)
    requires a.Valid() && AllFit(a.info[..], a.staging.Length, SdmaCopies(sdma, |sdma|))
    modifies a.staging
    ensures a.staging[..] == ApplyCopies(old(a.staging[..]), a.info[..], SdmaCopies(sdma, |sdma|))
  {
    ghost var s0 := a.staging[..];
    ghost var inf := a.info[..];
    SdmaStep(s0, inf, sdma, 0);
    for i := 0 to |sdma|
      invariant a.info[..] == inf
      invariant AllFit(inf, |s0|, SdmaCopies(sdma, i))
      invariant a.staging[..] == ApplyCopies(s0, inf, SdmaCopies(sdma, i))
    {
      SdmaStep(s0, inf, sdma, i + 1);
      CopySdmaInstance(a, i, sdma[i]);
    }
  }

  /** gfx_v10_0_rlc_backdoor_autoload_copy_gfx_ucode */
  method CopyGfxUcode(a: Autoloader, g: GfxFw)
    requires a.Valid() && AllFit(a.info[..], a.staging.Length, GfxCopies(g))
    modifies a.staging
    ensures a.staging[..] == ApplyCopies(old(a.staging[..]), a.info[..], GfxCopies(g))
  {
    ghost var inf := a.info[..];
    ghost var gs := GfxCopies(g);
    assert gs[0..] == gs;
    ApplyCopiesDrop(a.staging[..], inf, gs, 0);
    a.CopyUcode(FIRMWARE_ID_CP_PFP, g.pfp.bytes, g.pfp.sizeBytes);
    ApplyCopiesDrop(a.staging[..], inf, gs, 1);
    a.CopyUcode(FIRMWARE_ID_CP_CE, g.ce.bytes, g.ce.sizeBytes);
    ApplyCopiesDrop(a.staging[..], inf, gs, 2);
    a.CopyUcode(FIRMWARE_ID_CP_ME, g.me.bytes, g.me.sizeBytes);
    ApplyCopiesDrop(a.staging[..], inf, gs, 3);
    a.CopyUcode(FIRMWARE_ID_RLC_G_UCODE, g.rlc.bytes, g.rlc.sizeBytes);
    ApplyCopiesDrop(a.staging[..], inf, gs, 4);
    a.CopyUcode(FIRMWARE_ID_CP_MEC, g.mec.bytes, Sub32(g.mec.sizeBytes, Lo(g.mecJtSize * 4)));
    assert gs[5..] == [];
  }

  /**
   * gfx_v10_0_rlc_backdoor_autoload_enable: every copy in order, the three
   * bootloader writes, then the two checks on the bits read back from
   * RLC_HYP_RESET_VECTOR and RLC_CNTL. `tocBytes` is the TOC buffer as
   * bytes.
   */
  method AutoloadEnable(a: Autoloader, tocBytes: seq<byte>, sdma: seq<SdmaFw>, g: GfxFw, autoloadGpuAddr: u64,
                        coldBootExit: bool, vddgfxExit: bool, rlcEnableF32: bool)
    returns (st: Status, writes: seq<RegWrite>)
    requires a.Valid()
    requires AllFit(a.info[..], a.staging.Length, AutoloadCopies(tocBytes, a.info[FIRMWARE_ID_RLC_TOC].size, sdma, g))
    modifies a.staging
    ensures a.staging[..] ==
              ApplyCopies(old(a.staging[..]), a.info[..], AutoloadCopies(tocBytes, a.info[FIRMWARE_ID_RLC_TOC].size, sdma, g))
    ensures writes == BootloadWrites(autoloadGpuAddr, a.info[FIRMWARE_ID_RLC_G_UCODE])
    ensures st == EnableStatus(coldBootExit, vddgfxExit, rlcEnableF32)
  {
    ghost var s0 := a.staging[..];
    ghost var toc := TocCopy(tocBytes, a.info[..]);
    ghost var sd := SdmaCopies(sdma, |sdma|);
    ApplyCopiesAppend(s0, a.info[..], [toc] + sd, GfxCopies(g));
    ApplyCopiesAppend(s0, a.info[..], [toc], sd);
    ApplyOne(s0, a.info[..], toc);
    CopyTocUcode(a, tocBytes);
    CopySdmaUcode(a, sdma);
    CopyGfxUcode(a, g);

    var rlcGOffset := Lo(a.info[FIRMWARE_ID_RLC_G_UCODE].offset);
    var rlcGSize := Lo(a.info[FIRMWARE_ID_RLC_G_UCODE].size);
    var gpuAddr := Add64(autoloadGpuAddr, rlcGOffset);
    writes := [RegWrite(RlcHypBootloadAddrHi, Hi(gpuAddr)),
               RegWrite(RlcHypBootloadAddrLo, Lo(gpuAddr)),
               RegWrite(RlcHypBootloadSize, rlcGSize)];
    if !(coldBootExit || vddgfxExit) {
      return Err(EINVAL), writes;
    }
    if rlcEnableF32 {
      return Err(EINVAL), writes;
    }
    return Ok, writes;
  }
}
