# gfx_v10_0 command-processor core, modelled in Dafny

This project models the command-processor logic in the amdgpu GFX10 driver
(`drivers/gpu/drm/amd/amdgpu/gfx_v10_0.c`) that does not depend on I/O. Register
reads are parameters and register writes are returned values. The model covers:

- **Ring buffers and packet emitters** (`rings.dfy`, `packets.dfy`, `emit.dfy`).
  - A `Ring` holds an array of `buf_mask + 1` words (a power of two) and a write
    pointer `wptr`. Every `amdgpu_ring_write` stores at `wptr & buf_mask` and
    advances `wptr`. `amdgpu_ring_commit` pads with NOPs up to the next
    multiple of 256 words.
  - The KIQ (kernel interface queue) packets SET_RESOURCES, MAP_QUEUES,
    UNMAP_QUEUES and QUERY_STATUS are modelled with their size table. So are
    WRITE_DATA, WAIT_REG_MEM, RELEASE_MEM (the fence), the KIQ fence, the
    conditional-execution placeholder and its patch, the ring test and IB
    preemption.
  - The `PACKET3` header and the `PACKET3_*` field macros are symbolic ring words:
    `Header(op, count)` and `Fields(op, field ↦ value)`.
  - A decoder turns a word stream back into commands. Each encoder is proved to
    decode to the command it was meant to emit.
- **Memory queue descriptors (MQD) and queue initialisation** (`mqd.dfy`, `queues.dfy`).
  - The gfx and compute MQD records are built from the ring parameters and the
    register reads.
  - Each init_queue routine makes a three-way choice:
    - fresh init: build the MQD and snapshot it into the backup;
    - GPU reset: restore the MQD from the backup, set `wptr` to 0 and clear the ring;
    - resume: clear the ring only.
  - Compute rings are assigned their doorbell and EOP (end-of-pipe) slots.
- **RLC backdoor firmware autoload** (`autoload.dfy`).
  - The table of contents (TOC) is parsed into the `rlc_autoload_info` table.
  - The staging-buffer size is computed, each firmware image is copied
    (clamped and zero-padded), and the copies run in the order autoload_enable
    fixes.
  - The bootload address writes and the two start conditions are modelled.
  - So is the page-aligned firmware-size accounting of init_microcode.
- **Interrupt routing** (`irq.dfy`). The interrupt's `ring_id` is decoded into
  (me, pipe, queue). The model returns the gfx and compute rings, and the KIQ
  ring, that the EOP, privileged-fault and KIQ handlers notify.
- **Clear-state buffer (CSB)** (`csb.dfy`). `get_csb_size` is proved to agree
  with what `get_csb_buffer` writes, and the written buffer decodes to the
  expected packets.
- **Bit helpers** (`bits.dfy`, on `bv32`):
  - the active WGP (work-group processor) and CU (compute unit) bitmaps of a
    shader array;
  - the GDS ordered-append (OA) mask;
  - the KIQ selector byte written to RLC_CP_SCHEDULERS.

Shared words, registers and 32/64-bit arithmetic live in `words.dfy`.

Where behaviour made two choices possible, the model follows the C code:

- The compute MQD's doorbell control is assigned twice. The second assignment
  wins, so the field is a plain 0 when the ring has no doorbell.
- `parse_rlc_toc` loops until it meets an id outside (INVALID, MAX), with no
  other bound. The model stops at that id or at the end of the TOC it is given.

## Model

| member | source | states |
|---|---|---|
| Words.JoinLoHi | drivers/gpu/drm/amd/amdgpu/gfx_v10_0.c:262-263 | A 64-bit value split by lower_32_bits/upper_32_bits is rebuilt exactly by joining its halves |
| Words.Sub32 | drivers/gpu/drm/amd/amdgpu/gfx_v10_0.c:458 | u32 subtraction wraps modulo 2^32 and equals the plain difference when no borrow happens |
| Words.OrderBase2OfPow2 | drivers/gpu/drm/amd/amdgpu/gfx_v10_0.c:3006 | order_base_2 of 2^k is k |
| Words.AlignPage | drivers/gpu/drm/amd/amdgpu/gfx_v10_0.c:1951 | ALIGN(x, PAGE_SIZE) is a multiple of 4096 that is at least x and less than x + 4096 |
| Words.SetField | drivers/gpu/drm/amd/amdgpu/gfx_v10_0.c:3019-3024 | REG_SET_FIELD sets the named field, keeps the base value and every other field, and adds no other field |
| Rings.EngSel | drivers/gpu/drm/amd/amdgpu/gfx_v10_0.c:276 | The engine select is 4 exactly for gfx rings and 0 for every other ring |
| Rings.WrittenAt | drivers/gpu/drm/amd/amdgpu/gfx_v10_0.c:457-459 | After a packet is written at wptr, word j of the packet sits at slot (wptr + j) mod ring size, and every slot the packet does not reach keeps its old word |
| Rings.CondExecCount | drivers/gpu/drm/amd/amdgpu/gfx_v10_0.c:4606-4610 | The patched count lies in 1..buf_mask+1 and is congruent to cur − offset modulo the ring size. It is the full ring size exactly when cur equals offset, else the forward distance from offset to cur |
| Rings.CondExecSkipsFollowingWords | drivers/gpu/drm/amd/amdgpu/gfx_v10_0.c:4586-4611 | When m more words follow the placeholder, the patch value is m (the whole ring when m is 0), whatever the wrap-around |
| Rings.Ring.constructor | drivers/gpu/drm/amd/amdgpu/gfx_v10_0.c:1212-1240 | A new ring has a power-of-two buffer filled with its NOP word, wptr 0 and cond-exec enabled |
| Rings.Ring.Write | drivers/gpu/drm/amd/amdgpu/gfx_v10_0.c:459 | One amdgpu_ring_write stores the word at wptr & buf_mask and advances wptr by one |
| Rings.Ring.WriteAll | drivers/gpu/drm/amd/amdgpu/gfx_v10_0.c:257-268 | Writing a packet stores it at consecutive masked slots from wptr and advances wptr by its length |
| Rings.Ring.Clear | drivers/gpu/drm/amd/amdgpu/gfx_v10_0.c:3109 | amdgpu_ring_clear_ring leaves every slot of the ring a NOP |
| Rings.NopPadLeast | drivers/gpu/drm/amd/amdgpu/gfx_v10_0.c:5111 | With align_mask 0xff, commit's NOP count is the fewest words that bring wptr to a multiple of 256: 0 when it already is one, never more than 255 |
| Rings.Padded | drivers/gpu/drm/amd/amdgpu/gfx_v10_0.c:460 | A committed packet is the packet itself followed only by NOPs, at most 255 of them, ending at the first multiple of 256 words at or after the packet's end |
| Rings.Ring.Commit | drivers/gpu/drm/amd/amdgpu/gfx_v10_0.c:460 | amdgpu_ring_commit writes NopPad(wptr) NOPs from wptr and leaves wptr a multiple of 256 |
| Packets.ActionCode | drivers/gpu/drm/amd/amdgpu/gfx_v10_0.c:305-307 | The UNMAP_QUEUES action code is below 4 and is 3 exactly for PREEMPT_QUEUES_NO_UNMAP |
| Packets.DecodeStreamAppend | drivers/gpu/drm/amd/amdgpu/gfx_v10_0.c:257-354 | Decoding a concatenation of decodable streams yields the concatenation of their commands |
| Packets.SetResourcesPacket | drivers/gpu/drm/amd/amdgpu/gfx_v10_0.c:257-268 | SET_RESOURCES is one framed packet of exactly the 8 words the pm4 table declares |
| Packets.SetResourcesDecodes | drivers/gpu/drm/amd/amdgpu/gfx_v10_0.c:257-268 | SET_RESOURCES decodes to vmid mask 0, queue type 0, the queue mask rebuilt from its halves, and zero GWS, OAC and GDS fields |
| Packets.MapQueuesPacket | drivers/gpu/drm/amd/amdgpu/gfx_v10_0.c:270-295 | MAP_QUEUES is one framed packet of exactly the 7 words the pm4 table declares |
| Packets.MapQueuesDecodes | drivers/gpu/drm/amd/amdgpu/gfx_v10_0.c:270-295 | MAP_QUEUES decodes to the ring's queue, pipe and me bit (0 for MEC1), its engine select, one queue, its doorbell, its MQD address and its wptr write-back address |
| Packets.UnmapQueuesPacket | drivers/gpu/drm/amd/amdgpu/gfx_v10_0.c:297-322 | UNMAP_QUEUES is one framed packet of exactly the 6 words the pm4 table declares |
| Packets.UnmapQueuesDecodes | drivers/gpu/drm/amd/amdgpu/gfx_v10_0.c:297-322 | UNMAP_QUEUES carries the fence address and low 32 bits of seq only for PREEMPT_QUEUES_NO_UNMAP; for every other action its last three words are 0, 0, 0 |
| Packets.QueryStatusPacket | drivers/gpu/drm/amd/amdgpu/gfx_v10_0.c:324-343 | QUERY_STATUS is one framed packet of exactly the 7 words the pm4 table declares |
| Packets.QueryStatusDecodes | drivers/gpu/drm/amd/amdgpu/gfx_v10_0.c:324-343 | QUERY_STATUS decodes to command 2 with the ring's doorbell and engine select, the address and the 64-bit seq |
| Packets.WriteDataToRegPacket | drivers/gpu/drm/amd/amdgpu/gfx_v10_0.c:400-409 | WRITE_DATA to a register is one framed packet of 5 words |
| Packets.WriteDataToRegDecodes | drivers/gpu/drm/amd/amdgpu/gfx_v10_0.c:400-409 | It decodes to a register write of the value, with the engine select and write-confirm flag |
| Packets.WaitRegMemPacket | drivers/gpu/drm/amd/amdgpu/gfx_v10_0.c:411-431 | WAIT_REG_MEM is one framed packet of 7 words |
| Packets.WaitRegMemDecodes | drivers/gpu/drm/amd/amdgpu/gfx_v10_0.c:411-431 | It decodes to an "equal" (function 3) wait with the given memory space, operation, addresses, reference, mask and poll interval |
| Packets.FencePacket | drivers/gpu/drm/amd/amdgpu/gfx_v10_0.c:4457-4493 | RELEASE_MEM for a fence is one framed packet of 8 words |
| Packets.FenceDecodes | drivers/gpu/drm/amd/amdgpu/gfx_v10_0.c:4457-4493 | The fence writes 64 bits (data select 2) exactly when write64 is set, otherwise 32 bits, and raises an interrupt (select 2) exactly when asked |
| Packets.FenceKiqPacket | drivers/gpu/drm/amd/amdgpu/gfx_v10_0.c:4518-4543 | The KIQ fence is 5 words, or 10 when an interrupt is requested |
| Packets.FenceKiqDecodes | drivers/gpu/drm/amd/amdgpu/gfx_v10_0.c:4518-4543 | The KIQ fence is a memory write of the low 32 bits of seq, followed only when an interrupt is requested by a write of 0x20000000 to CPC_INT_STATUS |
| Packets.CondExecPacket | drivers/gpu/drm/amd/amdgpu/gfx_v10_0.c:4586-4598 | COND_EXEC is one framed packet of 5 words |
| Packets.RingTestPacket | drivers/gpu/drm/amd/amdgpu/gfx_v10_0.c:457-459 | The ring test packet is 3 words |
| Packets.RingTestDecodes | drivers/gpu/drm/amd/amdgpu/gfx_v10_0.c:457-459 | It decodes to a SET_UCONFIG_REG of 0xDEADBEEF at the scratch register's offset from the UCONFIG base |
| Emit.KiqSetResources | drivers/gpu/drm/amd/amdgpu/gfx_v10_0.c:257-268 | Writes the SET_RESOURCES packet into the KIQ ring and advances wptr by set_resources_size |
| Emit.KiqMapQueues | drivers/gpu/drm/amd/amdgpu/gfx_v10_0.c:270-295 | Writes the MAP_QUEUES packet and advances wptr by map_queues_size |
| Emit.KiqUnmapQueues | drivers/gpu/drm/amd/amdgpu/gfx_v10_0.c:297-322 | Writes the UNMAP_QUEUES packet and advances wptr by unmap_queues_size |
| Emit.KiqQueryStatus | drivers/gpu/drm/amd/amdgpu/gfx_v10_0.c:324-343 | Writes the QUERY_STATUS packet and advances wptr by query_status_size |
| Emit.WriteDataToReg | drivers/gpu/drm/amd/amdgpu/gfx_v10_0.c:400-409 | Writes the WRITE_DATA packet and advances wptr by 5 |
| Emit.WaitRegMem | drivers/gpu/drm/amd/amdgpu/gfx_v10_0.c:411-431 | Writes the WAIT_REG_MEM packet and advances wptr by 7; a memory wait needs a dword-aligned address |
| Emit.FenceIntSel | drivers/gpu/drm/amd/amdgpu/gfx_v10_0.c:4462-4466 | The fence raises an interrupt exactly when the fence flags ask for one and the PCI device id is not 0x50 |
| Emit.EmitFence | drivers/gpu/drm/amd/amdgpu/gfx_v10_0.c:4457-4493 | Writes the fence packet and advances wptr by 8; needs an 8-byte-aligned address for 64-bit writes, else 4-byte |
| Emit.EmitFenceKiq | drivers/gpu/drm/amd/amdgpu/gfx_v10_0.c:4518-4543 | Accepts 32-bit fences only; writes the KIQ fence and advances wptr by 10 with an interrupt, 5 without |
| Emit.InitCondExec | drivers/gpu/drm/amd/amdgpu/gfx_v10_0.c:4586-4598 | Writes COND_EXEC and returns the masked slot of its placeholder: that slot is at most buf_mask and holds 0x55aa55aa |
| Emit.WrittenSplit | drivers/gpu/drm/amd/amdgpu/gfx_v10_0.c:4586-4598 | Writing two packets one after the other is the same as writing their concatenation |
| Emit.PatchCondExec | drivers/gpu/drm/amd/amdgpu/gfx_v10_0.c:4600-4611 | Needs offset ≤ buf_mask and the placeholder at offset; stores the cond-exec count there and changes no other slot |
| Emit.Poll | drivers/gpu/drm/amd/amdgpu/gfx_v10_0.c:462-469 | The bounded poll stops at the first read equal to the wanted value, or at the timeout when no read within it matches |
| Emit.RingTest | drivers/gpu/drm/amd/amdgpu/gfx_v10_0.c:433-486 | A failed scratch allocation returns its error. Otherwise 0xCAFEDEAD is written to the scratch register; a failed ring allocation returns that error with the ring unchanged. Else the 3-word test packet is written and committed, so NOPs follow it up to the next multiple of 256 words. The result is 0 iff a read within the timeout sees 0xDEADBEEF, otherwise -EINVAL |
| Emit.PreemptIb | drivers/gpu/drm/amd/amdgpu/gfx_v10_0.c:4613-4651 | Without pmf the result is -EINVAL, and a failed KIQ allocation gives -ENOMEM; both change nothing. Otherwise trail_seq increases by one and is written in an UNMAP_QUEUES PREEMPT_QUEUES_NO_UNMAP packet on the KIQ, committed with NOP padding to a multiple of 256 words, and cond-exec ends re-enabled. The result is 0 iff the trailing fence shows trail_seq within the timeout, otherwise -EINVAL |
| Mqds.Lo4Hi16RoundTrip | drivers/gpu/drm/amd/amdgpu/gfx_v10_0.c:2995-3003 | The write-back address stored as (lo & ~3, hi & 0xffff) rebuilds the address for dword-aligned 48-bit addresses |
| Mqds.Shift8RoundTrip | drivers/gpu/drm/amd/amdgpu/gfx_v10_0.c:2990-2992 | An address stored shifted right by 8 rebuilds the original 256-byte-aligned address |
| Mqds.GfxMqdAddresses | drivers/gpu/drm/amd/amdgpu/gfx_v10_0.c:2950-3036 | The gfx MQD's base, HQD base, rptr and wptr-poll address fields rebuild the ring's MQD address, ring address and write-back slots |
| Mqds.ComputeMqdAddresses | drivers/gpu/drm/amd/amdgpu/gfx_v10_0.c:3192-3321 | The compute MQD's base, PQ base, EOP base, rptr-report and wptr-poll fields rebuild the corresponding ring addresses |
| Mqds.GfxMqdRingSize | drivers/gpu/drm/amd/amdgpu/gfx_v10_0.c:3006-3009 | RB_BUFSZ is order_base_2(ring_size/4) − 1, so 2^(RB_BUFSZ+1) is ring_size/4, and RB_BLKSZ is RB_BUFSZ − 2 |
| Mqds.ComputeMqdQueueSize | drivers/gpu/drm/amd/amdgpu/gfx_v10_0.c:3259-3261 | QUEUE_SIZE encodes the ring size: 2^(QUEUE_SIZE+1) is ring_size/4 |
| Mqds.ComputeMqdSizes | drivers/gpu/drm/amd/amdgpu/gfx_v10_0.c:3211-3263 | EOP_SIZE is 8, which describes the 2048-byte HPD slot, and RPTR_BLOCK_SIZE is 9 << 8 |
| Mqds.ComputeMqdDoorbell | drivers/gpu/drm/amd/amdgpu/gfx_v10_0.c:3284-3299 | The final doorbell control is 0 iff the ring has no doorbell; otherwise it is the value read with the offset, EN=1, SOURCE=0 and HIT=0 set |
| Mqds.GfxMqdDoorbell | drivers/gpu/drm/amd/amdgpu/gfx_v10_0.c:3015-3025 | DOORBELL_EN follows use_doorbell, and the doorbell offset is set (to the ring's index) exactly when a doorbell is used |
| Queues.ComputeRingInit | drivers/gpu/drm/amd/amdgpu/gfx_v10_0.c:1242-1274 | A compute ring on MEC mec sits at me mec+1 with the given pipe and queue |
| Queues.ComputeRingsDisjoint | drivers/gpu/drm/amd/amdgpu/gfx_v10_0.c:1242-1274 | Distinct compute rings get even doorbells at least 2 apart, non-overlapping 2048-byte EOP slots, and distinct interrupt sources when their (mec, pipe) differ |
| Queues.GfxRingDoorbell | drivers/gpu/drm/amd/amdgpu/gfx_v10_0.c:1212-1240 | Gfx ring 0 uses doorbell gfx_ring0 << 1 and every other ring gfx_ring1 << 1 |
| Queues.QueuePath | drivers/gpu/drm/amd/amdgpu/gfx_v10_0.c:3091-3119 | Fresh init iff neither reset nor suspend; reset restore iff in GPU reset; ring clear only iff suspended outside reset |
| Queues.KiqPath | drivers/gpu/drm/amd/amdgpu/gfx_v10_0.c:3437-3462 | The KIQ never takes the resume-only branch, and restores iff in GPU reset |
| Queues.ResetRestoresFreshInit | drivers/gpu/drm/amd/amdgpu/gfx_v10_0.c:3473-3490 | A reset after a fresh init brings back the MQD that init built when a backup exists; without a backup the MQD is left as it was |
| Queues.InitStepStable | drivers/gpu/drm/amd/amdgpu/gfx_v10_0.c:3473-3495 | Resume leaves MQD and backup alone; a repeated reset or a repeated fresh init with the same data changes nothing more |
| Queues.InitStepKeepsBackupPresence | drivers/gpu/drm/amd/amdgpu/gfx_v10_0.c:3481-3486 | No path allocates or frees a backup; a fresh init refreshes a present backup and other paths keep it |
| Queues.Queue.constructor | drivers/gpu/drm/amd/amdgpu/gfx_v10_0.c:3086-3090 | A queue pairs a ring with its MQD |
| Queues.InitQueue | drivers/gpu/drm/amd/amdgpu/gfx_v10_0.c:3473-3495 | The MQD and backup slot follow the chosen path and no other backup slot changes. wptr is 0 except on resume, fresh init leaves the ring buffer alone, and reset and resume clear it to NOPs |
| Queues.GfxInitQueue | drivers/gpu/drm/amd/amdgpu/gfx_v10_0.c:3086-3122 | gfx_init_queue as written: the InitQueue outcome for QueuePath, with the gfx MQD built from the ring and register reads, and backup slot AMDGPU_MAX_GFX_RINGS whatever the ring |
| Queues.GfxInitQueuePerRing | drivers/gpu/drm/amd/amdgpu/gfx_v10_0.c:3101-3106 | Corrected gfx_init_queue: the same outcome, with each gfx ring's own backup slot, so no other ring's backup changes |
| Queues.KcqInitQueue | drivers/gpu/drm/amd/amdgpu/gfx_v10_0.c:3467-3496 | kcq_init_queue: the InitQueue outcome for QueuePath with the compute MQD and the ring's backup slot |
| Queues.KiqInitQueue | drivers/gpu/drm/amd/amdgpu/gfx_v10_0.c:3429-3465 | kiq_init_queue: the outcome for KiqPath with backup slot AMDGPU_MAX_COMPUTE_RINGS; wptr ends 0; the ring is cleared only on reset. The returned writes are kiq_setting's two RLC_CP_SCHEDULERS values for the ring's me, pipe and queue |
| Queues.GfxSharedBackupRestoresOtherRing | drivers/gpu/drm/amd/amdgpu/gfx_v10_0.c:3101-3106 | With the shared slot, after both gfx rings are initialised a reset restores ring 0 from ring 1's MQD |
| Queues.GfxPerRingBackupRestoresOwn | drivers/gpu/drm/amd/amdgpu/gfx_v10_0.c:3101-3106 | With per-ring slots, the same sequence restores ring 0 from its own MQD |
| Autoload.Accepted | drivers/gpu/drm/amd/amdgpu/gfx_v10_0.c:1946-1947 | TOC parsing accepts the longest prefix of entries whose ids lie strictly between INVALID and MAX and stops at the first other id |
| Autoload.LastWithId | drivers/gpu/drm/amd/amdgpu/gfx_v10_0.c:1946-1959 | Finds the last accepted entry with a given id, if any |
| Autoload.ParsedInfoAt | drivers/gpu/drm/amd/amdgpu/gfx_v10_0.c:1946-1959 | After parsing, each id's record comes from the last accepted entry with that id. Its size is 4·size; its offset is 4·ALIGN(4·offset, PAGE_SIZE) for CP_CE..CP_MES and 4·offset otherwise. Ids no entry names keep their old record |
| Autoload.ParseIdempotent | drivers/gpu/drm/amd/amdgpu/gfx_v10_0.c:1927-1962 | Parsing the same TOC twice gives the same table as parsing it once |
| Autoload.SizeSumCovers | drivers/gpu/drm/amd/amdgpu/gfx_v10_0.c:1976-1977 | The running size sum is at least every single recorded size |
| Autoload.TocTotalSizeBounds | drivers/gpu/drm/amd/amdgpu/gfx_v10_0.c:1964-1985 | The computed total is at least the sum of the recorded sizes for ids 1..MAX-1. When that sum is below the last id's offset, the total is exactly that entry's offset plus its size |
| Autoload.StagingSize | drivers/gpu/drm/amd/amdgpu/gfx_v10_0.c:1964-1985 | Corrected total: at least calc_toc_total_size's value, covers every entry's [offset, offset+size), and equals the source's value whenever that already covers them |
| Autoload.TocTotalSizeMissesPfpSlot | drivers/gpu/drm/amd/amdgpu/gfx_v10_0.c:1964-1985 | For a TOC of RLC_G (4096 bytes at 0) and CP_PFP (8192 bytes from offset 16384), calc_toc_total_size is 12288, but the PFP slot ends at 24576. So the PFP copy does not fit a buffer of the source's size, and it fits one of StagingSize |
| Autoload.EffectiveSize | drivers/gpu/drm/amd/amdgpu/gfx_v10_0.c:2030-2036 | The copied length is fw_size, clamped to the slot size, with fw_size 0 meaning the whole slot |
| Autoload.PlacedBytes | drivers/gpu/drm/amd/amdgpu/gfx_v10_0.c:2026-2041 | copy_ucode writes only bytes [offset, offset+toc_size): the first min(fw_size, toc_size) from the image, the rest zero; no other byte changes |
| Autoload.ApplyCopiesAppend | drivers/gpu/drm/amd/amdgpu/gfx_v10_0.c:2152-2163 | Running a list of copies then another is running their concatenation |
| Autoload.ApplyCopiesFrame | drivers/gpu/drm/amd/amdgpu/gfx_v10_0.c:2017-2042 | A byte that lies in no copied slot keeps its value through a run of copies |
| Autoload.ApplyCopiesSlot | drivers/gpu/drm/amd/amdgpu/gfx_v10_0.c:2017-2042 | A byte ends up as the last copy whose slot contains it put it: image data inside the clamped length, zero beyond |
| Autoload.SdmaCopiesIds | drivers/gpu/drm/amd/amdgpu/gfx_v10_0.c:2118-2150 | Each SDMA instance copies its ucode, then its jump table: SDMA0 ucode and JT, then SDMA1 ucode and JT |
| Autoload.AutoloadOrder | drivers/gpu/drm/amd/amdgpu/gfx_v10_0.c:2152-2163 | autoload_enable copies the TOC first, then the SDMA images, then PFP, CE, ME, RLC_G and MEC |
| Autoload.BootloadAddress | drivers/gpu/drm/amd/amdgpu/gfx_v10_0.c:2165-2167 | The HI and LO bootload writes rebuild the staging-buffer address plus RLC_G's offset |
| Autoload.EnableStatus | drivers/gpu/drm/amd/amdgpu/gfx_v10_0.c:2169-2182 | autoload_enable succeeds iff COLD_BOOT_EXIT or VDDGFX_EXIT is set and RLC_ENABLE_F32 is clear; every other outcome is -EINVAL |
| Autoload.PspUcodes | drivers/gpu/drm/amd/amdgpu/gfx_v10_0.c:749-832 | The PSP-loaded list contains the RLC restore lists iff RLC v2.1 with all three lists present, and MEC2 iff MEC2 firmware exists |
| Autoload.AlignedSumBounds | drivers/gpu/drm/amd/amdgpu/gfx_v10_0.c:749-832 | A sum of page-aligned sizes is page-aligned and lies within one page per image above the raw sum |
| Autoload.Align32 | drivers/gpu/drm/amd/amdgpu/gfx_v10_0.c:754-755 | ALIGN of a u32 size in u32: always a page multiple, the exact round-up for sizes up to 2^32 − PAGE_SIZE, and 0 for larger sizes |
| Autoload.AlignedSum32 | drivers/gpu/drm/amd/amdgpu/gfx_v10_0.c:749-832 | Accumulating the aligned sizes in u32 always leaves a page multiple |
| Autoload.AlignedSum32Exact | drivers/gpu/drm/amd/amdgpu/gfx_v10_0.c:749-832 | When no size is within a page of 2^32 and the aligned total fits in 32 bits, the u32 accumulation equals the unbounded sum |
| Autoload.FwSizeIncrementPages | drivers/gpu/drm/amd/amdgpu/gfx_v10_0.c:749-832 | The u32 firmware-size increment is always page-aligned. Under PSP loading, when nothing wraps, it covers the raw image sizes with less than one page of slack per image |
| Autoload.MecUnderflowAddsNothing | drivers/gpu/drm/amd/amdgpu/gfx_v10_0.c:801-814 | A MEC header with ucode_size_bytes 0 and jt_size 1 gives an image size of 2^32 − 4, whose ALIGN wraps to 0, while the jump table adds one page |
| Autoload.Autoloader.constructor | drivers/gpu/drm/amd/amdgpu/gfx_v10_0.c:1921-1925 | The autoload info table starts with every id empty |
| Autoload.Autoloader.ParseRlcToc | drivers/gpu/drm/amd/amdgpu/gfx_v10_0.c:1927-1962 | An allocation failure returns its error and changes nothing. Otherwise the TOC copy holds the entries with CP-class offsets rewritten, and the info table is the parsed table |
| Autoload.Autoloader.CalcTocTotalSize | drivers/gpu/drm/amd/amdgpu/gfx_v10_0.c:1964-1985 | calc_toc_total_size as written: returns 0 when the TOC cannot be read; otherwise parses it and returns TocTotalSize of the parsed table |
| Autoload.Autoloader.FurthestEnd | drivers/gpu/drm/amd/amdgpu/gfx_v10_0.c:1964-1985 | A scan of ids RLC_G..MAX-1 returns the highest end offset of any slot |
| Autoload.Autoloader.CalcStagingSize | drivers/gpu/drm/amd/amdgpu/gfx_v10_0.c:1964-1985 | Corrected calc_toc_total_size: the same parse and error case, returning StagingSize, which covers every slot |
| Autoload.Autoloader.BufferInit | drivers/gpu/drm/amd/amdgpu/gfx_v10_0.c:1987-2005 | buffer_init as written: returns the allocation status; on success the staging buffer is a fresh buffer of calc_toc_total_size bytes |
| Autoload.Autoloader.BufferInitCovering | drivers/gpu/drm/amd/amdgpu/gfx_v10_0.c:1987-2005 | Corrected buffer_init: the same, with a buffer of StagingSize bytes |
| Autoload.StagingSizeFits | drivers/gpu/drm/amd/amdgpu/gfx_v10_0.c:2026-2041 | A StagingSize buffer takes every copy_ucode call whose image is long enough, whichever slot it names |
| Autoload.Autoloader.CopyUcode | drivers/gpu/drm/amd/amdgpu/gfx_v10_0.c:2017-2042 | The staging buffer becomes the copy's effect: unchanged for an id outside (INVALID, MAX), otherwise the clamped, zero-padded image in that id's slot |
| Autoload.CopyTocUcode | drivers/gpu/drm/amd/amdgpu/gfx_v10_0.c:2044-2055 | Copies the TOC image into the RLC_TOC slot |
| Autoload.CopySdmaInstance | drivers/gpu/drm/amd/amdgpu/gfx_v10_0.c:2125-2148 | One SDMA instance: its ucode copy, then its jump-table copy |
| Autoload.CopySdmaUcode | drivers/gpu/drm/amd/amdgpu/gfx_v10_0.c:2118-2150 | The staging buffer ends as the SDMA copy list applied in order |
| Autoload.CopyGfxUcode | drivers/gpu/drm/amd/amdgpu/gfx_v10_0.c:2057-2116 | The staging buffer ends as PFP, CE, ME, RLC_G and MEC applied in that order |
| Autoload.AutoloadEnable | drivers/gpu/drm/amd/amdgpu/gfx_v10_0.c:2152-2183 | The staging buffer is the full copy list applied; the bootload writes carry RLC_G's address and size; the status is EnableStatus of the register reads |
| Irq.DecodeEncode | drivers/gpu/drm/amd/amdgpu/gfx_v10_0.c:4914-4916 | Decoding ring_id gives me from bits 2-3, pipe from bits 0-1 and queue from bits 4-6; decoding an encoded (me, pipe, queue) returns it |
| Irq.Matching | drivers/gpu/drm/amd/amdgpu/gfx_v10_0.c:4927-4934 | The rings visited and kept are exactly those at the decoded coordinates, in increasing index order |
| Irq.EopRouting | drivers/gpu/drm/amd/amdgpu/gfx_v10_0.c:4905-4938 | EOP with me 0 fences gfx ring 0 for pipe 0 and gfx ring 1 otherwise. With me 1 or 2 it fences exactly the compute rings matching me, pipe and queue, each once. Other me values fence nothing |
| Irq.EopFencesOwnRing | drivers/gpu/drm/amd/amdgpu/gfx_v10_0.c:4905-4938 | When compute rings have distinct coordinates, a compute ring's EOP interrupt fences that ring alone |
| Irq.CollectMatching | drivers/gpu/drm/amd/amdgpu/gfx_v10_0.c:4927-4934 | The handler's loop over the rings collects exactly the matching indices |
| Irq.EopIrq | drivers/gpu/drm/amd/amdgpu/gfx_v10_0.c:4905-4938 | The handler notifies exactly the EOP targets of the decoded ring_id |
| Irq.FaultRouting | drivers/gpu/drm/amd/amdgpu/gfx_v10_0.c:4977-5009 | A privileged fault with me 0 faults the gfx rings on pipe with me 0, whatever their queue. With me 1 or 2 it faults compute rings matching all three coordinates; me 3 is BUG() |
| Irq.HandlePrivFault | drivers/gpu/drm/amd/amdgpu/gfx_v10_0.c:4977-5009 | The handler produces exactly the fault targets of the decoded ring_id |
| Irq.KiqRouting | drivers/gpu/drm/amd/amdgpu/gfx_v10_0.c:5074-5089 | Whatever ring_id says, the KIQ interrupt fences the KIQ ring and no gfx or compute ring. The EOP and fault handlers never fence the KIQ |
| Irq.KiqIrq | drivers/gpu/drm/amd/amdgpu/gfx_v10_0.c:5074-5089 | Whatever the ring_id, the handler notifies exactly the KIQ targets: the KIQ ring alone |
| Csb.SectionsCount | drivers/gpu/drm/amd/amdgpu/gfx_v10_0.c:870-877 | The section scan yields a count iff no section before the end is a non-context section with extents |
| Csb.CsbSize | drivers/gpu/drm/amd/amdgpu/gfx_v10_0.c:859-887 | get_csb_size is 0 iff some section that is not a context section has at least one extent, and at least 12 otherwise |
| Csb.ExtentsAgree | drivers/gpu/drm/amd/amdgpu/gfx_v10_0.c:870-918 | The words written for a context section's extents number the count get_csb_size adds for them |
| Csb.SectionsAgree | drivers/gpu/drm/amd/amdgpu/gfx_v10_0.c:870-921 | The writer completes all sections iff the size scan finds none rejected, and then writes exactly the counted words |
| Csb.CsbSizeMatchesBuffer | drivers/gpu/drm/amd/amdgpu/gfx_v10_0.c:859-935 | When no non-context section has an extent, the buffer is exactly get_csb_size words: 2 + 3 + Σ(2 + reg_count) + 3 + 2 + 2. Otherwise the size is 0 while the writer has already written at least 5 words |
| Csb.ExtentsDecode | drivers/gpu/drm/amd/amdgpu/gfx_v10_0.c:910-918 | The extents' words decode to one SET_CONTEXT_REG per extent, each carrying its offset from the context base and its values |
| Csb.SectionsDecode | drivers/gpu/drm/amd/amdgpu/gfx_v10_0.c:909-921 | The sections' words decode to the SET_CONTEXT_REG commands of every extent in order |
| Csb.BeginDecodes | drivers/gpu/drm/amd/amdgpu/gfx_v10_0.c:902-907 | The buffer opens with PREAMBLE begin-clear-state and CONTEXT_CONTROL with both enables 0x80000000 |
| Csb.EndDecodes | drivers/gpu/drm/amd/amdgpu/gfx_v10_0.c:926-934 | The buffer closes with the tile-steering override, PREAMBLE end-clear-state and CLEAR_STATE 0 |
| Csb.CsbStreamDecodes | drivers/gpu/drm/amd/amdgpu/gfx_v10_0.c:889-935 | The whole buffer decodes to begin, every extent's command and end; when a section is rejected it stops after the sections written before it |
| Csb.HoldsAppend | drivers/gpu/drm/amd/amdgpu/gfx_v10_0.c:889-935 | Two adjacent written runs form the run of their concatenation |
| Csb.PutWords | drivers/gpu/drm/amd/amdgpu/gfx_v10_0.c:902-907 | buffer[count++] for each word writes them at count.. and advances count by their number, leaving other slots alone |
| Csb.PutSection | drivers/gpu/drm/amd/amdgpu/gfx_v10_0.c:910-919 | Writes a context section's extents at count and advances count by their word count |
| Csb.PutSections | drivers/gpu/drm/amd/amdgpu/gfx_v10_0.c:909-921 | The section loop writes the section words and reports whether it met no rejected section |
| Csb.GetCsbBuffer | drivers/gpu/drm/amd/amdgpu/gfx_v10_0.c:889-935 | No table or no buffer writes nothing. Otherwise the buffer's prefix is exactly the CSB stream and every later slot is unchanged |
| Bits.CreateBitmaskBit | drivers/gpu/drm/amd/amdgpu/gfx_v10_0.c:5322-5323 | For every width n below 64, bit i of create_bitmask(n) is set iff i < n, so all 32 bits are set from n = 32 on |
| Bits.InactiveWgpsOr | drivers/gpu/drm/amd/amdgpu/gfx_v10_0.c:5316-5320 | Taking the INACTIVE_WGPS field of the OR of the two config reads is the OR of their fields |
| Bits.WgpActiveDisjoint | drivers/gpu/drm/amd/amdgpu/gfx_v10_0.c:5313-5326 | No bit of the active-WGP bitmap is inactive in either config read or lies beyond create_bitmask(max_cu_per_sh/2) |
| Bits.WgpActiveCovers | drivers/gpu/drm/amd/amdgpu/gfx_v10_0.c:5313-5326 | Every bit is active, inactive in one of the reads, or beyond create_bitmask(max_cu_per_sh/2) |
| Bits.WgpActiveBits | drivers/gpu/drm/amd/amdgpu/gfx_v10_0.c:5313-5326 | The active-WGP bitmap shares no bit with either inactive field or with the bits beyond max_cu_per_sh/2, and every bit is in the bitmap or one of those |
| Bits.PairsBelowStep | drivers/gpu/drm/amd/amdgpu/gfx_v10_0.c:5336-5341 | One iteration extends "pairs below k are 3 for active WGPs and 0 otherwise" to k+1 |
| Bits.CuActiveBitmap | drivers/gpu/drm/amd/amdgpu/gfx_v10_0.c:5328-5344 | CU bit pair i is 3 iff WGP i is active, and 0 otherwise, for all 16 WGPs |
| Bits.OaMaskBits | drivers/gpu/drm/amd/amdgpu/gfx_v10_0.c:3944-3946 | The OA mask sets exactly the oa_size bits starting at oa_base |
| Bits.KiqSchedulerFields | drivers/gpu/drm/amd/amdgpu/gfx_v10_0.c:2936-2948 | Both RLC_CP_SCHEDULERS writes keep the upper 24 bits of the read, hold queue in bits 0-2, pipe in 3-4 and me in 5-6; the first has bit 7 clear and the second is the first with bit 7 set |

## Left out

- MMIO: RREG32/WREG32, WREG32_FIELD15 and WDOORBELL64 are not modelled as device accesses. Register reads are parameters and register writes are returned `RegWrite` values.
- amdgpu_ring_write, amdgpu_ring_alloc, amdgpu_ring_commit and amdgpu_ring_clear_ring live in amdgpu_ring.c/.h, which are not part of this model. amdgpu_ring_write is `Ring.Write` (a run of them is `Ring.WriteAll`), amdgpu_ring_commit is `Ring.Commit`, and amdgpu_ring_clear_ring is `Ring.Clear`. amdgpu_ring_alloc is only its returned status, a parameter; its reservation of space is not modelled.
- Rings.Ring.Commit: the memory barrier and the amdgpu_ring_set_wptr hardware write-pointer update are not modelled, only the NOP padding.
- Rings.Ring.Write: wptr is an unbounded natural. The 64-bit wrap of `ring->wptr` and `ptr_mask` are not modelled; the word is stored at `wptr % (buf_mask + 1)`, which equals `wptr & buf_mask` for a power-of-two ring.
- PACKET3, PACKET3_*_xxx, WRITE_DATA_*, WAIT_REG_MEM_* and EOP_* macros are defined in headers that are not part of this model. They are symbolic header and field words, so bit layouts and the 14-bit count width are not modelled.
- The REG_SET_FIELD bit positions come from register headers that are not part of this model. Fields are symbolic (`RegVal` with named fields), so field truncation to its width is not modelled.
- Bits.WgpActiveBitmap: the INACTIVE_WGPS mask and shift are parameters, because the register headers are not part of this model.
- Bits.WgpActiveBitmap: requires max_cu_per_sh / 2 < 64. For larger widths amdgpu_gfx_create_bitmask shifts a 64-bit value by 64 or more, which C leaves undefined.
- Bits.OaMaskBits: requires oa_size + oa_base < 31, where the C `int` shift is defined without overflow.
- Bits.KiqSchedulerFields: requires me < 4, pipe < 4 and queue < 8, the ranges the KIQ ring is placed in; larger values would spill into neighbouring bits, exactly as the C expression does.
- Autoload: TOC sizes, offsets and sums use unbounded naturals; the u32 wrap-around of `total_size` and of the offsets is not modelled.
- Autoload.FwSizeIncrementPages: the coverage and slack bounds are promised only when no size is within a page of 2^32 and the aligned total fits in 32 bits. Otherwise ALIGN and `adev->firmware.fw_size` wrap in u32, as `Align32` and `AlignedSum32` model, and the increment can fall short of the images (see `MecUnderflowAddsNothing`). Only the increment is modelled, not fw_size's earlier value; fw_size ends as that value plus the increment, modulo 2^32.
- Autoload.Autoloader.CopyUcode: requires `Fits`, that the slot lies inside the staging buffer and that the image holds at least the clamped length. copy_ucode checks neither; outside them its memcpy/memset would overrun, which the model does not describe. A staging buffer of the source's size can break the first condition; see the second row of "## Findings".
- Autoload: the TOC's packed bitfield layout (`RLC_TABLE_OF_CONTENT`) is not modelled. The TOC is a sequence of (id, offset, size) entries, and the TOC image copied into the staging buffer is an opaque byte sequence.
- Autoload.Autoloader.ParseRlcToc: the C loop has no bound other than the terminating id. The model stops at the end of the TOC sequence it is given.
- Autoload: request_firmware, firmware header validation, amdgpu_bo_create_reserved/kmap/free and smu_load_microcode are foreign calls. Only their success or failure (and the firmware sizes and data) are inputs.
- Autoload: gfx_v10_0_wait_for_rlc_autoload_complete and config_me_cache/mec_cache poll the hardware and write cache registers; they are not modelled.
- Csb: the cpu_to_le32 byte order and the u32 width of the count are not modelled. Words are symbolic and the count is a natural.
- Csb: a single `cs_data` table is passed to both get_csb_size and get_csb_buffer, as the driver uses the same `adev->gfx.rlc.cs_data` for both.
- Csb.CsbSizeMatchesBuffer: when a non-context section with at least one extent is present, get_csb_size reports 0 words while get_csb_buffer still writes the words before that section. The lemma states both facts; whether the clear-state table (gfx10_cs_data, in a header that is not part of this model) ever holds such a section is not modelled.
- Irq: the set_*_interrupt_state routines (4768-4903, 4940-4975, 5029-5072) only program interrupt-enable registers and are not modelled.
- Irq: amdgpu_fence_process and drm_sched_fault are external; their calls become the returned ring indices.
- Emit: udelay and the emulation-mode branches only affect timing. Each poll becomes a bounded search over a given sequence of reads within `usec_timeout` steps.
- Emit: gfx_v10_0_ring_test_ib, emit_ib, emit_vm_flush, emit_hdp_flush, emit_ce_meta/de_meta, emit_tmz, emit_rreg/wreg and the other ring callbacks are not part of the core modelled here.
- Queues: the KIQ/KCQ register programming (kiq_init_register, gfx_queue_init_register) and kiq_enable_kgq are register plumbing and are not modelled. KiqInitQueue returns only kiq_setting's scheduler writes.
- Queues: the mqd_backup buffers are allocated outside this file (amdgpu_gfx.c); each backup slot's presence is an input that no path changes.
- Queues: the srbm_mutex, grbm_idx_mutex and gpu_clock_mutex locking and the atomic64 write-pointer mirror are concurrency and are left out; the model is sequential.
- Golden register tables, clock and power gating, wave-state readout, GRBM CAM remapping, tiling, RB and steering configuration are static data or hardware tuning without logic to prove.
- `__BIG_ENDIAN` variants and the BRING_UP_DEBUG direct-register paths are build-time variants and are not modelled.

## Findings

| source | as written | input that shows it | evidently intended | confidence | as-written member | corrected member |
|---|---|---|---|---|---|---|
| drivers/gpu/drm/amd/amdgpu/gfx_v10_0.c:3101-3106 | gfx_init_queue saves and restores every gfx ring's MQD through backup slot `mqd_backup[AMDGPU_MAX_GFX_RINGS]` | Fresh init of gfx ring 0 and then gfx ring 1, then a GPU reset: when `mqd_backup[AMDGPU_MAX_GFX_RINGS]` holds a buffer (it is allocated outside this file), ring 0 is restored from ring 1's MQD | Each gfx ring uses its own slot `mqd_backup[ring index]`, as kcq_init_queue does with `mqd_idx` | not executed | Queues.GfxSharedBackupRestoresOtherRing | Queues.GfxPerRingBackupRestoresOwn |
| drivers/gpu/drm/amd/amdgpu/gfx_v10_0.c:1964-1985 | calc_toc_total_size returns the summed sizes, or the last id's offset + size when the sum is below that offset; neither need reach the end of every slot | A TOC with RLC_G (1024 dwords at offset 0) and CP_PFP (2048 dwords at offset 1024 dwords, page-aligned to 16384 bytes): the total is 12288 but the PFP slot ends at 24576 | The staging buffer covers every recorded [offset, offset + size) | not executed | Autoload.TocTotalSizeMissesPfpSlot | Autoload.Autoloader.CalcStagingSize |

Queues.GfxInitQueue, Autoload.Autoloader.CalcTocTotalSize and Autoload.Autoloader.BufferInit follow the code as written. Queues.GfxInitQueuePerRing, Autoload.Autoloader.CalcStagingSize and Autoload.Autoloader.BufferInitCovering are the corrected versions.
